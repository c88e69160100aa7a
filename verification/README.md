# CivicLens: proved models of its algorithms and protocols

CivicLens is a civic complaint platform. This project states, in Dafny, what its self-contained algorithms and
protocols do and proves what they promise. `dafny verify dfyconfig.toml` checks everything.

Five groups of logic are modelled.

* **Clustering and graphs.** Complaint hotspots (`DisjointSets`, `HotspotGrid`, `HotspotGroups`, `Hotspots`): a
  union-find with path halving over a bucketed grid computes connected components; `HotspotCells` says which records
  the grid puts within reach of each other and `HotspotTotals` what the figures count. The import audit
  (`ImportCycles`): a three-colour search reports a cycle exactly when there is one. The migration generator
  (`TableOrder`): a topological order exists exactly when one is returned. `Graphs` holds paths, cycles and
  reachability.
* **Binary decoders** of the small Parquet reader (`Bytes`, `Snappy`, `RleHybrid`, `Thrift`). The encoders are the
  specification; decoding inverts them.
* **The search index.** `Bm25` and `Vectors` agree with a brute-force scan, and `Bm25Order` and `VectorGeometry` say
  what the scan ranks first; `RagIndex` keeps three stores together through a roll-back, `IndexSync` converges on its
  source despite failed refreshes, and `Fusion` and `Retrieval` carry the two rankings and their visibility to the
  answer, which `RetrievalOrder` reads in plain terms; `SearchService` puts synchronizer and retriever together.
  `ChunkText`, `Chunking` and `Packing` show that packing loses and reorders nothing and keeps its size bounds,
  `ChunkBlocks` that blocks are the longest runs of lines, `ChunkLimits` where pieces end, `ChunkPages` why chunks
  end, when the recorded page is right and what the final fold does, and `ChunkExamples` two small documents. `Corpus`
  holds the chunks and their words.
* **Protocols.** `RedisWindow` interleaves the Redis commands of many processes, with crashes; `RateLimits` models the
  in-process limiter and throttle, `ResilientBound` both together; `IdentityResolution`, `NameSimilarity` and
  `Gateway` the consent and identity protocol between departments, `MatchThresholds` and `NameMeasures` what it takes
  to be linked, `CitizenAccount` whom a request is addressed to, `ConsentRuns` the runs of the gateway and of the
  workflow engine; `Submission` and `Schedules` the hand-over to a government platform by workers that may overlap;
  `Accounts` roles, sessions and password resets, `Sessions` and `Roles` their runs in terms of times and of the roles
  by name; `Mfa` one-time codes.
* **Arithmetic with a claim.** `Trend` is the least-squares forecast and `TrendBand` its band in closed form,
  `Reference` and `ReferenceText` the checksummed reference number, `ConnectorHealth` the rounded running average.
  `Arithmetic`, `Ordering` and `Wrappers` are shared.

State that the code updates in place is a class whose methods are proved against functions of the old state; what the
code promises is then proved of those functions and of whole runs. Pure code is functions and lemmas.

## Results where the code does less, or other, than one might expect

* The Redis limiter is documented to allow a burst of twice the limit. Over a half-open interval of one window length
  the exact bound is `2 * limit - 1`, and it is reached; with both ends counted it is `2 * limit`, reached exactly
  when the server drops a key at its deadline. A hit counts at the time of its INCR.
* The hotspots are documented as single-linkage clusters. The grid takes a degree of latitude for 111320 metres and
  the distance formula for less, so close records can lie in rows that are not compared; an example is given. The
  groups are the single-linkage clusters exactly when such records are joined all the same by a chain of compared
  pairs.
* Columns of the grid are scaled at each record's own latitude, so that two records on one meridian can be 189 metres
  apart, within a link distance of 200, in columns that do not touch; records on one parallel within the link distance
  are always compared.
* Switching an account on or off asks for a super-admin where the account is privileged: of whoever acts on a
  citizen's or an officer's account it asks nothing, which is left to the permission its caller checks.
* The gateway asks for all the fields it reads, so it finds a consent that covers too little only if something else
  has made a narrower one.
* `order` also stops with "cyclic foreign keys" when a foreign key points at a table that is not listed.
* The roll-back of `add_document` restores the earlier contents exactly when none of the document's ids was in use;
  otherwise the older chunks of those ids are gone as well.
* Adding a changed chunk again without a vector leaves the vector index with the older copy. Chunks added without
  vectors keep the copies equal exactly when each one under an id held there is the copy held; visibility is then the
  same on every copy.
* Two mobile entries count as the same without agreeing on a digit exactly when neither has one.
* The gateway's consents stay unique per person and kind of document, and every read is justified. The workflow engine
  takes the latest grant without looking at its end and reads in a later step, so a read through it is justified
  exactly when the grant lasts that long, covers the fields and is not withdrawn in between; examples of both failures
  are given.
* The workflow engine makes a grant of its own even while a request is waiting. Consents then overlap, and the latest
  grant no longer decides: an example is given, and the order is kept exactly as long as that does not happen.
* The date of a reference may hold a decimal digit of another script, and a zero replaced by U+06F8 goes unnoticed.
* References are upper-cased before they are checked, so a letter of the body or of the check symbol typed in lower
  case passes. A wrong character in the body or the check symbol is noticed exactly if upper-casing does not turn it
  into the right one.
* The generator of references takes any prefix. Checked with that prefix the reference validates exactly when it is
  two to five upper-case letters. Checked without one the reference is upper-cased first: a lower-case prefix then
  passes exactly when upper-casing leaves the weighted sum the same modulo 31, as it does for "no" and does not for
  "cl".
* `set_active` and `change_role` with a current context always keep an active super-admin. A context that is out of
  date loses the last one exactly when the step is on the last one's own row and does not leave it an active
  super-admin.
* A chunk that begins with carried text keeps the page of the chunk before it. Its page is right exactly when its own
  text begins on the page where the run of such chunks began; an example where it is wrong is given, and with no
  overlap or a single page number it never is.
* The final fold joins the last two chunks whole. Where the second began with carried text, those words are then in
  the folded chunk twice; otherwise the chunks returned spell the document exactly.
* The documentation says that without consent nothing leaves the system. Consent is looked at when the submission is
  requested and not again: a run keeps the promise exactly when no call of the adapter comes after a withdrawal that
  stands, and a run that breaks it is given.
* A government submission succeeds at most once, and submitted is final, when workers neither overlap nor stop between
  their call and their second transaction. Exactly, a schedule succeeds at most once whatever the adapter answers if
  and only if the worker of each call has finished before the worker of the next call starts.
* The rounded running average of a connector's latency is left where it is by a call exactly when the call is closer
  to it than half a hundredth per call made (or just that close, for an even number of hundredths). Its distance from
  the true mean is at most `0.0025 (n + 1) - 0.005 / n` after `n` calls, and for every `n` a run reaches that.
* `forecast_linear` divides by zero when `min_points` admits a series of at most one point.
* The Snappy reader takes an offset of zero as the first byte of the output and accepts literals and offsets cut short
  by the end of the input, as long as the final length is right; an example of each is given. Everything else that it
  accepts is a legal stream, if lengths may be written with more bytes than needed, and its output is what the stream
  stands for.

## Model

| member | source | states |
|---|---|---|
| Hotspots.AggregateHotspots | app/services/location_service.py:90-157 | Refused exactly when the link distance is not positive; otherwise the groups are exactly the connected components of the pairs the loop compares and finds within the link distance, the hotspots summarise the groups of at least `min_count` records, and the result is those hotspots sorted |
| Hotspots.SingleLinkageExactlyWhen | app/services/location_service.py:96-100 | The groups are the single-linkage clusters the documentation promises if and only if close records whose grid cells do not touch are joined all the same by a chain of compared, close pairs |
| Hotspots.SingleLinkage | app/services/location_service.py:96-100 | So they are whenever close records always fall into touching cells |
| Hotspots.MeridianPairMissed | app/services/location_service.py:109-136 | On a sphere with less than 111264 metres to the degree, two records on one meridian within 111.32 metres of each other lie in rows that do not touch, and are not clustered together |
| HotspotCells.TouchOnAParallel | app/services/location_service.py:109-116 | Two records of one latitude whose distance, at 111320 metres to the degree times the cosine of the latitude or 0.01 if that is more, is within the link distance lie in touching cells |
| HotspotCells.TouchOnAMeridian | app/services/location_service.py:109-116 | So do two records of one longitude within the link distance by that scale, where the columns that their two latitudes give them touch |
| HotspotCells.MeridianExactlyWhen | app/services/location_service.py:113-114 | Exactly, two records of one longitude within the link distance by that scale lie in touching cells when the two distances from the prime meridian, each scaled at its own latitude and counted in whole link distances, are at most one apart |
| HotspotCells.NeighboursOnAParallel | app/services/location_service.py:109-136 | Two records of one latitude that are within the link distance by that scale and by the distance formula are in one hotspot |
| HotspotCells.ColumnsDrift | app/services/location_service.py:113-114 | Two records on one meridian 189 metres apart, at 60 degrees north, whose columns do not touch, because each record is scaled at its own latitude |
| HotspotCells.PairTogether | app/services/location_service.py:126-136 | Two records in touching cells whose distance is at most the link distance are in one hotspot |
| HotspotCells.LinkedAreWithin | app/services/location_service.py:132-136 | Two records that are linked at first hand are different ones within the link distance |
| HotspotTotals.ItemsAre | app/services/location_service.py:103-107 | The records clustered are those with both coordinates that fit the filters, in their order; an empty filter is none |
| Hotspots.CountsAddUp | app/services/location_service.py:142-157 | With `min_count` at most 1 the counts of the hotspots add up to the number of records that have coordinates and pass the filters |
| Hotspots.WorstFirst | app/services/location_service.py:156 | The result is the summaries themselves, ordered by severity, count and key |
| HotspotTotals.ListOrder | app/services/location_service.py:156 | Of two hotspots the one listed first scores no less; of two that score the same it has no fewer records, and then no greater key |
| HotspotTotals.ScoreByGrade | app/services/location_service.py:149 | The score counts low records once, high ones three times, critical ones four times and all others, ungraded ones included, twice |
| HotspotTotals.TallyOfCategory | app/services/location_service.py:150-151 | The tally of a category is the number of records that name it; records without one are counted as "unknown" |
| HotspotTotals.TallyOfWard | app/services/location_service.py:152-153 | The tally of a ward is the number of records that name it; records without one are counted nowhere |
| Hotspots.Summarise | app/services/location_service.py:145-155 | A hotspot has its records' least id as key, their mean position, their number, their summed severity, and exact tallies of categories and wards |
| Hotspots.Cluster | app/services/location_service.py:109-140 | Bucketing, linking and gathering together produce exactly the connected components of the compared, close pairs |
| HotspotGrid.FillBuckets | app/services/location_service.py:110-116 | Every bucket lists exactly the records of its cell, in order |
| HotspotGrid.LinkCell | app/services/location_service.py:130-136 | Every close later record of one bucket is linked, and nothing else |
| HotspotGrid.LinkRow | app/services/location_service.py:126-136 | After the nine neighbouring buckets every close, later record in a touching cell is linked |
| HotspotGrid.LinkAll | app/services/location_service.py:126-136 | After the pass two records share a representative exactly when a chain of compared, close pairs joins them |
| DisjointSets.Forest.Find | app/services/location_service.py:120-124 | `find` terminates and returns the representative, although it rewrites parents as it goes; no representative changes |
| DisjointSets.Forest.Link | app/services/location_service.py:136 | Joins the class of one record to that of the other and changes no other class |
| DisjointSets.Halve | app/services/location_service.py:122-123 | Path halving keeps the parents an acyclic forest with the same representatives |
| DisjointSets.JoinRoots | app/services/location_service.py:136 | Hanging one root under another keeps the parents an acyclic forest |
| DisjointSets.LinkMatches | app/services/location_service.py:136 | Representatives go on matching connectivity when one more pair is linked |
| DisjointSets.RootsDecideReach | app/services/location_service.py:120-140 | Two records have the same representative if and only if a chain of links joins them |
| HotspotGroups.Gather | app/services/location_service.py:138-140 | One group per representative, holding its records in ascending order |
| HotspotGroups.GroupsAreComponents | app/services/location_service.py:138-140 | The gathered groups are exactly the connected components |
| HotspotGroups.ComponentsPartition | app/services/location_service.py:138-140 | Every record lands in exactly one group |
| ImportCycles.CycleFinder.Run | scripts/audit_imports.py:103-118 | Problems are reported if and only if the import graph has a cycle; every reported path is a genuine cycle; removing the reported closing imports leaves no cycle |
| ImportCycles.CycleFinder.Dfs | scripts/audit_imports.py:106-113 | The search ends, finishes its module, and keeps the colours, the stack and the reports consistent |
| ImportCycles.CycleFinder.Follow | scripts/audit_imports.py:108-112 | Each import is either reported as closing a cycle or leads to a finished module |
| ImportCycles.ReportIsGenuine | scripts/audit_imports.py:110 | The path cut out of the stack is a cycle of the graph |
| ImportCycles.Done | scripts/audit_imports.py:115-118 | With all imports settled, there is a cycle exactly when one was reported |
| TableOrder.Order | scripts/generate_initial_migration.py:154-162 | Succeeds exactly when every foreign key points at a listed table and the foreign-key graph without self-references has no cycle; then every table comes once, after its targets, and the order is the alphabetically least such order |
| TableOrder.Stuck | scripts/generate_initial_migration.py:158-160 | No table is ready only when there is a cycle or a target outside the tables |
| TableOrder.OrderRefutesCycles | scripts/generate_initial_migration.py:154-162 | An order with every target earlier exists only without cycles |
| TableOrder.TargetsComeFirst | scripts/generate_initial_migration.py:155 | Every other table that a column refers to, as `table.column`, is created before |
| TableOrder.DepsAre | scripts/generate_initial_migration.py:155 | With references written that way the tables to come first are exactly the others referred to |
| Snappy.SnappyDecompress | tools/minimal_parquet_reader.py:4-30 | The loop computes the decompression function, with its index and length errors |
| Snappy.DecompressInvertsStream | tools/minimal_parquet_reader.py:4-30 | For every sequence of literals and copies with valid offsets, in every encoding of their lengths, decompression yields exactly the described bytes (Snappy format description, sections 1 and 2) |
| Snappy.AcceptedIsLegalExactlyWhen | tools/minimal_parquet_reader.py:4-30 | Of what is accepted, the legal streams, over-long lengths at the front included, are exactly those in which no element is cut short and no offset is zero; then the output is what the elements stand for |
| Snappy.WholeIsLegal | tools/minimal_parquet_reader.py:11-30 | A stream with nothing missing that decompresses is, byte for byte, the encoding of legal elements |
| Snappy.ZeroOffsetAccepted | tools/minimal_parquet_reader.py:28 | A copy with offset zero repeats the first byte of the output |
| Snappy.CutLiteralAccepted | tools/minimal_parquet_reader.py:20 | A literal announced as two bytes of which one is there is taken |
| Snappy.CutOffsetAccepted | tools/minimal_parquet_reader.py:25 | A two-byte offset of which one byte is there is taken |
| Snappy.CopyIsPeriodic | tools/minimal_parquet_reader.py:28 | A copy longer than its offset repeats the last bytes of the output periodically |
| Snappy.ReadsLongLiteral | tools/minimal_parquet_reader.py:15-20 | A literal whose length needs one to four extra little-endian bytes is read whole |
| Snappy.ReadsCopy | tools/minimal_parquet_reader.py:22-28 | The three kinds of copy are read with the length and offset they were written with |
| RleHybrid.Decode | tools/minimal_parquet_reader.py:69-87 | The loop computes the decoding function, with its index error |
| RleHybrid.DecodeInvertsRuns | tools/minimal_parquet_reader.py:69-87 | Any mix of repeated runs and bit-packed groups of eight at any bit width decodes to the first `count` values, ending just past the last run needed (Parquet Encodings, RLE / bit-packing hybrid) |
| RleHybrid.NeededIsLeast | tools/minimal_parquet_reader.py:71-87 | The runs read are the least number that hold `count` values |
| RleHybrid.ReadsPacked | tools/minimal_parquet_reader.py:78-82 | Shifting and masking the little-endian number gives the packed values back |
| RleHybrid.ReadsRepeated | tools/minimal_parquet_reader.py:84-86 | A repeated run gives its value as often as written |
| RleHybrid.FieldIsDigit | tools/minimal_parquet_reader.py:81-82 | Shift and mask extract the i-th value |
| Bytes.PaddedRoundTrip | tools/minimal_parquet_reader.py:33-38 | Reading a written varint of any size, over-long ones included, gives the number and stops behind it |
| Bytes.EveryVarintIsPadded | tools/minimal_parquet_reader.py:33-38 | Whatever bytes are read as a varint are its encoding, perhaps over-long |
| Bytes.Varint | tools/minimal_parquet_reader.py:33-38 | The loop computes the varint reading function, with its index error |
| Bytes.ZigZag | tools/minimal_parquet_reader.py:39 | The zigzag number of an integer decodes to that integer |
| Thrift.Reader.Val | tools/minimal_parquet_reader.py:40-59 | Reads a value of each type, nested ones included, as the reading function does, with its errors |
| Thrift.Reader.ReadFields | tools/minimal_parquet_reader.py:60-68 | Reads a struct as the reading function does and moves the cursor to its end |
| Thrift.ReadsItem | tools/minimal_parquet_reader.py:40-59 | Reading back a written value gives its meaning and stops right behind it |
| Thrift.ReadsFields | tools/minimal_parquet_reader.py:60-68 | Reading back a written struct gives the same field map, for short and long field-id deltas, and stops exactly at the end (Thrift compact protocol, struct encoding) |
| Thrift.ReadsList | tools/minimal_parquet_reader.py:49-57 | Reading back a written list, of short or long form, gives its elements |
| Thrift.ReadsFieldHeader | tools/minimal_parquet_reader.py:63-66 | A field id written as a delta or in full is read back |
| RedisWindow.AtMostTwiceTheLimitClosed | app/core/redis_limits.py:4-5 | In every run, with any interleaving of INCR, TTL and EXPIRE and crashes in between, at most twice the limit is let through in any interval of one window length, ends included |
| RedisWindow.AtMostTwiceTheLimit | app/core/redis_limits.py:23-33 | In every half-open interval the bound is one less: at most `2 * limit - 1` |
| RedisWindow.BoundIsReached | app/core/redis_limits.py:4-5 | For every limit and window some run reaches `2 * limit - 1`, so no smaller bound holds |
| RedisWindow.ClosedBoundIsReached | app/core/redis_limits.py:4-5 | With both ends counted, twice the limit is reached exactly when the server drops a key at its deadline; where it still serves the key then, one less is the bound there too |
| RedisWindow.RunKeepsInv | app/core/redis_limits.py:27-33 | Every reachable state keeps: numbers are given out once per life of the key, and lives of the key are at least a window apart |
| RedisWindow.StepKeepsInv | app/core/redis_limits.py:27-33 | Each single step of any process, a crash or the passing of time keeps that invariant |
| RateLimits.ResilientLimiter.Hit | app/core/redis_limits.py:62-72 | A hit is let through exactly when Redis accepts it, or is unreachable and the local limiter has room; both histories grow by just that |
| ResilientBound.OneProcess | app/core/redis_limits.py:58-72 | What Redis and the local limiter of one process let through together is at most `3 * limit - 1` in any half-open interval of one window |
| ResilientBound.AllProcesses | app/core/redis_limits.py:58-72 | For any number of processes it is at most `2 * limit - 1` by Redis and `limit` more for each process |
| ResilientBound.AllProcessesReached | app/core/redis_limits.py:58-72 | For any number of processes that bound is reached |
| RateLimits.SlidingWindowLimiter.Hit | app/core/rate_limit.py:70-78 | A hit is accepted exactly when fewer than `limit` accepted hits are younger than the window; waiting the time named makes room, and there is none until a second before it |
| RateLimits.SlidingWindowLimiter.NeverMoreThanLimit | app/core/rate_limit.py:61-78 | In every interval of one window length at most `limit` hits of a key are accepted |
| RateLimits.SpreadBound | app/core/rate_limit.py:74-78 | Events of which each is a window later than the `limit`-th before it never number more than `limit` in a window |
| RateLimits.FailureThrottle.Check | app/core/rate_limit.py:39-47 | Refuses exactly while a burst of failures since the last clearing is younger than the lock-out; the time named is enough, and until a second before it is not |
| RateLimits.FailureThrottle.RecordFailure | app/core/rate_limit.py:49-54 | The failures since the last clearing grow by one, and the lock is set exactly when they complete a burst |
| RateLimits.FailureThrottle.RecordSuccess | app/core/rate_limit.py:56-58 | A success clears the key and no other |
| RateLimits.LockDecides | app/core/rate_limit.py:39-54 | The latest burst alone decides whether a key is locked |
| Bm25.BM25Index.Add | app/rag/bm25.py:56-65 | Stores the document under its id; postings, document frequencies and total length are again those of the stored documents |
| Bm25.BM25Index.Remove | app/rag/bm25.py:67-77 | Removes exactly that document; the statistics are again those of the stored documents and no posting is left empty |
| Bm25.BM25Index.RemoveDocument | app/rag/bm25.py:79-83 | Removes exactly the chunks of the document and returns their number |
| Bm25.BM25Index.Search | app/rag/bm25.py:90-119 | The hits are the first `top_k` of a brute-force ranking of all visible documents that share a query term and score above zero |
| Bm25.BM25Index.Candidates | app/rag/bm25.py:97-99 | The postings give exactly the documents that contain a query term |
| Bm25.BM25Index.ScoreOf | app/rag/bm25.py:107-115 | The score is the sum over the query terms, with corpus statistics recomputed from the documents, plus the identifier bonus |
| Bm25.ScoresArePositive | app/rag/bm25.py:85-117 | With a bonus that is not negative every document sharing a query term scores above zero, so the test for a positive score drops none |
| Bm25Order.RarerTermFirst | app/rag/bm25.py:85-88 | Of two documents alike but for the one query term that each holds once, that with the rarer term comes first among the hits, if it is visible |
| Bm25Order.MoreOfTheQueryFirst | app/rag/bm25.py:107-118 | A visible document that holds every term of the query at least as often as another, one more often, is no longer and named if the other is, comes before it |
| Bm25Order.HigherScoreFirst | app/rag/bm25.py:118-119 | Among the hits the one that scores higher comes first, and of two that score the same the one with the lesser id |
| Bm25Order.RarerWeighsMore | app/rag/bm25.py:85-88 | The fewer documents hold a term, the more it weighs, and every term weighs something |
| Bm25Order.IdfIs | app/rag/bm25.py:85-88 | The weight is the logarithm of N + 1 over df + 1/2 |
| Bm25Order.MoreOccurrencesCountMore | app/rag/bm25.py:109-113 | More occurrences in documents of one length count strictly more, and always less than k1 + 1 times the weight |
| Bm25Order.LongerCountsLess | app/rag/bm25.py:112-113 | The same occurrences count no more in a longer document, and strictly less unless length is switched off |
| Bm25Order.OnceOnAverage | app/rag/bm25.py:112-113 | One occurrence in a document of average length counts the weight itself |
| Bm25Order.AverageIs | app/rag/bm25.py:52-54 | The average times the number of documents is their total length |
| Bm25Order.NamesEntityExactlyWhen | app/rag/bm25.py:114-115 | The bonus is given exactly when the query, upper-cased, contains one of the non-blank values extracted from the chunk, upper-cased |
| Bm25Order.OccurrencesOf | app/rag/bm25.py:59-62 | A term counts as often as the tokeniser yields it for heading and text together |
| Bm25.PostTerms | app/rag/bm25.py:64-65 | After the loop exactly the new document's terms list its id |
| Bm25.UnpostTerms | app/rag/bm25.py:72-77 | After the loop no posting lists the removed document and none is empty |
| Vectors.InMemoryVectorIndex.Add | app/rag/vector_search.py:48-59 | Refuses a vector of wrong length or of norm zero before anything changes; otherwise replaces the entry of that id, ids and rows staying aligned |
| Vectors.InMemoryVectorIndex.Remove | app/rag/vector_search.py:61-67 | Drops exactly the entry of that id, ids and rows staying aligned |
| Vectors.InMemoryVectorIndex.Search | app/rag/vector_search.py:75-96 | The hits are the first `top_k` of the ranking of all stored vectors that are similar enough and visible |
| Vectors.MatchingHits | app/rag/vector_search.py:90-96 | The hits are exactly the stored, visible chunks whose vectors are similar enough, each once and with its similarity |
| VectorGeometry.NearestFirst | app/rag/vector_search.py:89-96 | With rows of length one the hits come by their distance from the query, nearest first, and by id where it is equal |
| VectorGeometry.FoundExactlyWhen | app/rag/vector_search.py:90-94 | A stored chunk is found exactly when it is visible and its row is within the distance that the threshold stands for |
| VectorGeometry.SimilarityIsCosine | app/rag/vector_search.py:52-59 | The similarity times both lengths is the product of the two vectors as given |
| VectorGeometry.SimilarityAtMostOne | app/rag/vector_search.py:89 | Rows of length one are at most 1 similar, and 1 exactly if they are the same |
| VectorGeometry.AddKeepsUnits | app/rag/vector_search.py:52-59 | Adding a vector keeps all rows of length one |
| RagIndex.RagIndex.AddDocument | app/rag/index.py:17-30 | All or nothing: on success every chunk is stored; on a bad vector every id of the document is gone, which restores the earlier contents exactly when none of those ids was in use |
| RagIndex.RagIndex.DropChunk | app/rag/index.py:32-36 | Drops one id from the chunk store and both indexes |
| RagIndex.RagIndex.RemoveDocument | app/rag/index.py:38-42 | Drops exactly the chunks of the document from all three stores and returns their number |
| RagIndex.RagIndex.RollBack | app/rag/index.py:27-29 | The clean-up drops every id of the document, added or not |
| RagIndex.DropFresh | app/rag/index.py:27-29 | Dropping ids changes nothing if and only if none of them is stored |
| RagIndex.DropAfterPutAll | app/rag/index.py:22-29 | Dropping a document's ids undoes having stored any part of it |
| RagIndex.AgreeAfterPutAll | app/rag/index.py:22-26 | Chunks added with vectors keep the vector index's copies equal to the store; chunks added without do so exactly when each one under an id held there is, the last time it occurs, the copy held |
| RagIndex.ChangedWithoutVector | app/rag/index.py:22-26 | A chunk stored with a vector and added again changed and without one leaves the two copies different |
| RagIndex.ChunksDetermineDocs | app/rag/index.py:17-36 | The lexical statistics are determined by the stored chunks, so restoring the chunks restores them |
| IndexSync.IndexSynchronizer.Refresh | app/rag/index_sync.py:34-49 | Succeeds exactly when every ready document that is new or changed loads with vectors that fit its chunks and can be stored; then the index holds exactly the chunks of the ready documents, the report counts what was done, and on an unchanged source nothing changes; a failure leaves the documents before it up to date and everything in step |
| IndexSync.IndexSynchronizer.ReloadAll | app/rag/index_sync.py:41-48 | Each ready document that is new or changed is loaded, taken out and put in again; it fails at the first that cannot be, with the documents before it up to date and those from it on remembered as before |
| IndexSync.IndexSynchronizer.Reload | app/rag/index_sync.py:44-47 | One document is replaced exactly when it loads with vectors that fit and can be stored; a failed load changes nothing, a failed addition leaves the document out, and everything else stays in step |
| IndexSync.IndexSynchronizer.Prune | app/rag/index_sync.py:37-40 | Documents no longer ready leave the index, are forgotten and are counted; the others stay |
| IndexSync.InStepIsExact | app/rag/index_sync.py:34-49 | Once every remembered version is the newest shown, every document is in the index exactly as at that version |
| IndexSync.NewerSource | app/rag/index_sync.py:35 | When the source moves on, documents only fall behind; nothing else breaks |
| IndexSync.AfterAdding | app/rag/index_sync.py:46 | Putting in a document whose ids are its own changes no other document's part |
| IndexSync.AfterRemoval | app/rag/index_sync.py:38-45 | Taking a document out changes no other document's part |
| Fusion.ReciprocalRankFusion | app/rag/rrf.py:21-42 | Refused exactly when `k` is not positive; otherwise every listed item comes once, with the sum of `weight / (k + rank)` over its lists and its ranks, ordered by score, best rank and id |
| Fusion.Count | app/rag/rrf.py:30-40 | The nested loops give every listed item the summed score and the rank in each list, repeats not counted |
| Fusion.DominatingItemFirst | app/rag/rrf.py:3-5 | With positive weights, an item that stands above another in every list naming the other stands above it in the fusion |
| Fusion.RepeatsDoNotCount | app/rag/rrf.py:36-38 | A list that names an item twice gives it nothing more |
| RetrievalOrder.FusionOrder | app/rag/rrf.py:41 | Fused hits come by score, then by their best rank in any list, then by id |
| RetrievalOrder.MinRankIsLeast | app/rag/rrf.py:41 | The best rank is one of the ranks and none is less |
| RetrievalOrder.OneFromEachList | app/rag/rrf.py:31-40 | Without weights each list that has an item gives it 1 over k + rank |
| RetrievalOrder.WeightedList | app/rag/rrf.py:31 | With weights a list counts by the weight under its name, or by 1 if there is none |
| Retrieval.HybridRetriever.Retrieve | app/rag/hybrid_retrieval.py:57-117 | The lists fused are the first `bm25_top_k` and `vector_top_k` of the two full rankings; every returned chunk is one of the store, passes the caller's visibility test, names all identifiers of the query, meets the relevance floor when scored, and appears once; at most `final_top_k` are returned, the first of the reranked pool that pass; the counts add up, and a warning is given exactly when no semantic search was made |
| Retrieval.HybridRetriever.SearchVectors | app/rag/hybrid_retrieval.py:62-71 | The semantic hits are the first of the ranking of all stored vectors that are visible and similar enough, or none where the query has no usable vector; exactly when the search cannot be done a warning says why |
| Retrieval.HybridRetriever.SearchBm25 | app/rag/hybrid_retrieval.py:60 | The lexical hits are the first `bm25_top_k` of the brute-force ranking of the visible documents |
| Retrieval.HybridRetriever.RankPool | app/rag/hybrid_retrieval.py:78-95 | The pool is the fused chunks that the store holds, reranked; what passes the gates is a proper answer |
| Retrieval.HybridRetriever.Gate | app/rag/hybrid_retrieval.py:95-107 | The two filters in turn, with the number each dropped |
| Retrieval.GateMembers | app/rag/hybrid_retrieval.py:95-107 | Exactly the candidates that meet the floor and name the identifiers get through, in their order |
| Retrieval.FusedPool | app/rag/hybrid_retrieval.py:78-89 | Every candidate is a visible chunk of the store, although visibility is decided on the copies held by the two indexes |
| Retrieval.ListedIsVisible | app/rag/hybrid_retrieval.py:73-80 | An id listed by either search belongs to a chunk that is visible in the store |
| Retrieval.AgreeingIndex | app/rag/hybrid_retrieval.py:44-55 | An index whose stores agree has the same copy of each chunk everywhere |
| Retrieval.AnswerOk | app/rag/hybrid_retrieval.py:91-117 | Reranking and gating keep the chunks visible, distinct and within the limit |
| Retrieval.Rerank | app/rag/reranker.py:54-58 | Scored candidates come best first; when the model gives no scores the order stays and a warning is given |
| Retrieval.RerankedPool | app/rag/reranker.py:54-97 | Reranking keeps exactly the pool's chunks; a scoring reranker scores every one |
| Retrieval.LexicalScoreInRange | app/rag/reranker.py:39-52 | The lexical score lies between 0 and 1 |
| RetrievalOrder.LexicalScoreIs | app/rag/reranker.py:39-52 | The score is the weighted sum, cut off at 1, of three shares of sets: of the words that count found in the text, of neighbouring words found as neighbours, and of the words that count found in the heading |
| RetrievalOrder.PassesExactlyWhen | app/rag/text.py:66-72 | A chunk passes exactly when it meets the floor and its text has every word of the query with a digit that is hyphenated or longer than three characters |
| RetrievalOrder.NothingUnnamed | app/rag/text.py:66-72 | There is no answer to a query with such a word that no chunk has |
| RetrievalOrder.AnswerOrder | app/rag/reranker.py:57 | Scored answers come by score, then by fused score, then by id |
| RetrievalOrder.ModelScores | app/rag/reranker.py:95-97 | A model's score is read out of ten and cut off at both ends; a candidate without one gets nought |
| RetrievalOrder.FoundWhereItSays | app/rag/hybrid_retrieval.py:76-89 | A candidate names a search exactly when it is among its hits, and carries the score that search gave it |
| SearchService.AlwaysSearchable | app/container.py:197-198 | However the refreshes went, failed ones included, the synchronised index is one that the retriever may be given |
| SearchService.RefreshAndSearch | app/ui/pages/citizen.py:2607-2611 | After a refresh that succeeds, every chunk found is visible and one of a ready document as the source shows it now; after one that fails the search is still in order |
| IdentityResolution.IdentityStore.FindCrossSystemMatch | app/interop/identity_resolution.py:69-109 | Exactly one identifier of each master known to another system is compared, and the match has the highest rounded score among the comparisons, whatever the order of the rows |
| IdentityResolution.BestOfOneMore | app/interop/identity_resolution.py:107-108 | Comparing a raw score with the rounded best is enough to keep the highest rounded score |
| IdentityResolution.IdentityStore.ResolvePerson | app/interop/identity_resolution.py:127-154 | A known identifier is answered by its link; a best score of at least 0.90 links, one of at least 0.55 asks an officer, anything less makes a new person; no link changes |
| IdentityResolution.IdentityStore.QueueCandidate | app/interop/identity_resolution.py:116-125 | The same open question is not asked twice |
| IdentityResolution.IdentityStore.Decide | app/services/interop_gateway_service.py:573-601 | A pending candidate is linked to the proposed person or to a fresh one; a decided candidate and an identifier linked in the meantime are refused and nothing changes |
| IdentityResolution.IdentityStore.Forget | app/services/interop_gateway_service.py:283-285 | The demo reset deletes exactly the links and candidates of the given identifiers |
| IdentityResolution.ConflictStaysBelow | app/interop/identity_resolution.py:103-106 | A comparison whose mobiles differ scores at most 0.85 after rounding |
| IdentityResolution.SameMobileStaysAbove | app/interop/identity_resolution.py:102 | A comparison whose mobiles are equal scores at least 0.6 |
| IdentityResolution.NoLinkAcrossConflict | app/interop/identity_resolution.py:139-143 | A link made without an officer has score at least 0.90 and never rests on a comparison whose mobiles differ |
| IdentityResolution.SameMobileIsNeverSilentlyNew | app/interop/identity_resolution.py:138-154 | If a compared record has the same mobile, the person is linked or an officer is asked, never silently made new |
| MatchThresholds.ResolvedExactlyWhen | app/interop/identity_resolution.py:127-154 | Somebody not known yet is linked without an officer exactly if some compared record has an equal mobile and a name score of at least 0.74875, or no mobile on a side and one of at least 0.8995; an officer is asked exactly if not, but one has an equal mobile or a name score of at least 0.5495; otherwise it is a new person |
| MatchThresholds.ScoreThresholds | app/interop/identity_resolution.py:100-108 | The two thresholds as conditions on the name score, for equal, missing and different mobiles |
| MatchThresholds.ScoreIs | app/interop/identity_resolution.py:100-106 | An equal mobile lifts the score to 0.6 and 0.4 of the name score, a different one holds it at 0.85, a missing one leaves the name score |
| MatchThresholds.LastTenDigitsDecide | app/interop/identity_resolution.py:35-36 | Two numbers that end in ten digits are the same exactly if those ten are, whatever stands before them |
| MatchThresholds.OthersDoNotCount | app/interop/identity_resolution.py:35-36 | A character that is no digit changes nothing |
| MatchThresholds.MissingMobiles | app/interop/identity_resolution.py:91-99 | There is nothing to compare exactly if a side has no entry or an empty one |
| MatchThresholds.FamilyPhone | app/interop/identity_resolution.py:100-108 | Equal mobiles with a name score of 0.2 come to 0.68: an officer is asked |
| IdentityResolution.EntriesWithoutDigitsAgree | app/interop/identity_resolution.py:35-36 | Only digits are compared: two entries agree on no digits at all exactly when neither has one, so the same mobile is evidence exactly when an entry has a digit |
| IdentityResolution.LinksNeverChange | app/interop/identity_resolution.py:111-154 | In every run of the operations an identifier keeps throughout the one person it is linked to exactly if no demo reset names it |
| IdentityResolution.DecisionsStay | app/services/interop_gateway_service.py:573-601 | In every run a decided question stays decided as it was, as long as no demo reset names its identifier |
| IdentityResolution.NeverLinkedAcrossConflict | app/interop/identity_resolution.py:139-143 | In every run a link made by comparison alone is at 0.90 or more and its mobiles did not differ |
| MatchThresholds.NeverLinkedOnMobileAlone | app/interop/identity_resolution.py:138-143 | In every run each link made by comparison has a name score of at least 0.74875 behind it, and of at least 0.8995 where a mobile was missing |
| IdentityResolution.StepKeeps | app/interop/identity_resolution.py:111-154 | Each single operation keeps the tables in order, and all but the demo reset keep every row |
| NameSimilarity.SimilarityInRange | app/services/duplicate_service.py:50-60 | The lexical similarity lies between 0 and 1, is symmetric, and is 1 for a text with itself when it has a content word |
| NameSimilarity.FitsTheMatcher | app/interop/identity_resolution.py:88 | That similarity meets what the identity matcher needs of it |
| NameMeasures.SimilarityByParts | app/services/duplicate_service.py:55-60 | Two names are wholly alike exactly when they have the same words that count and the same trigrams, and not alike at all exactly when they share neither; the same words alone come to 0.6 and the same trigrams alone to 0.4 |
| NameMeasures.TrigramsAre | app/services/duplicate_service.py:50-52 | The trigrams are the runs of three characters; a shorter text is its own only one and an empty one has none |
| NameMeasures.JaccardIs | app/services/duplicate_service.py:56-57 | The share of words is that of both among those of either, 1 exactly when they are the same and 0 when none is shared |
| NameMeasures.DiceIs | app/services/duplicate_service.py:58-59 | The share of trigrams is twice those of both among those of the one and of the other |
| Gateway.InteropGateway.RequestDocumentExchange | app/services/interop_gateway_service.py:151-239 | Each outcome has its exact condition in terms of the departments' answers, of what is linked once resolution was tried, and of the consents; Department A is read exactly when a consent in force for the one person both records are linked to covers the fields, once and under that consent |
| Gateway.InteropGateway.UnderConsent | app/services/interop_gateway_service.py:206-237 | Exactly one document is read if and only if a consent in force covers the fields; one in force that covers less is reported; without one in force a request for consent is waiting |
| Gateway.InteropGateway.LatestGrantAnswers | app/services/interop_gateway_service.py:206-237 | The grant created last alone tells whether a consent is in force, and which |
| Gateway.InteropGateway.ExecuteExchange | app/services/interop_gateway_service.py:309-377 | The document is fetched if and only if the consent covers every required field |
| Gateway.InteropGateway.AskForConsent | app/services/interop_gateway_service.py:206-231 | Without a consent in force the waiting request is returned or a new one made, and no consent is in force for that person and kind |
| Gateway.InteropGateway.FindConsent | app/services/interop_gateway_service.py:408-413 | The latest created consent of a person, kind and status, or none if there is none |
| Gateway.InteropGateway.ResolveBoth | app/services/interop_gateway_service.py:173-203 | Both sides are resolved to one person exactly when both identifiers end up linked to it; each reason to stop has its exact condition |
| Gateway.InteropGateway.GrantConsent | app/services/interop_gateway_service.py:428-442 | Only a pending consent, by its citizen or an administrator, becomes granted, for thirty days |
| Gateway.InteropGateway.DenyConsent | app/services/interop_gateway_service.py:444-458 | Only a pending consent, by its citizen or an administrator, becomes denied |
| Gateway.InteropGateway.RevokeConsent | app/services/interop_gateway_service.py:460-474 | Only a granted consent, by its citizen or an administrator, becomes revoked |
| Gateway.InteropGateway.ResolveIdentityCandidate | app/services/interop_gateway_service.py:573-601 | Only an administrator decides; the decision stands exactly when the candidate is known, pending and its identifier not linked; approval links to the proposed person, rejection to another |
| Gateway.InteropGateway.ResetDemoScenario | app/services/interop_gateway_service.py:263-288 | Open consents naming one of the applications are revoked, no other changes; earlier reads stay justified |
| Gateway.OneOpenConsent | app/services/interop_gateway_service.py:206-226 | A person has at most one consent per kind of document that is pending or validly granted |
| Gateway.LatestGrantDecides | app/services/interop_gateway_service.py:408-413 | Taking the grant created last never misses one that is in force |
| Gateway.GrantsOkAfterRequest | app/services/interop_gateway_service.py:206-218 | A new request for consent keeps the consents of a person and kind one after another |
| Gateway.GrantsOkAfterStep | app/services/interop_gateway_service.py:428-474 | No decision or withdrawal disturbs that order |
| Gateway.JustifiedAfterStep | app/services/interop_gateway_service.py:320-332 | Every read so far stays justified by the consent as it is recorded: granted before, not run out, not yet withdrawn, for that person and kind, covering all fields |
| ConsentRuns.DecisionsAreFinal | app/services/interop_gateway_service.py:428-474 | In every run of the events of the gateway and of the workflow engine denied and revoked consents never change, and a granted one can only be revoked |
| ConsentRuns.GrantedRequestLeadsToRead | app/services/interop_gateway_service.py:206-237 | In every run the consent that an exchange asked for, once granted and not taken back, is in force for exactly thirty days from the decision, and every exchange for that person and kind in that time that gets as far as the consents reads the document |
| ConsentRuns.CitizenDecides | app/services/interop_gateway_service.py:211-212 | Whenever such a consent is looked at, the account found for the citizen, or the one who asked where none was found, may grant or deny it while it waits and withdraw it once granted; of all others only those who manage the exchange may |
| CitizenAccount.CitizenAccountFor | app/services/interop_gateway_service.py:242-253 | The request goes to a citizen's account exactly if it is the only active one whose profile ends in the same ten digits as a mobile of one of the departments' records; where two are meant nobody is guessed |
| ConsentRuns.NeverTooLittle | app/services/interop_gateway_service.py:320-332 | As long as the engine's grants cover the three fields as well, no exchange ever finds a consent that covers too little |
| ConsentRuns.CoversRequiredExactlyWhen | app/services/interop_gateway_service.py:99 | A consent covers what is read exactly when it names the reference, the status and the date of issue |
| ConsentRuns.ResetWithdrawsExactlyWhen | app/services/interop_gateway_service.py:275-279 | A demo reset withdraws exactly the consents, waiting or granted, whose purpose contains the number of one of its applications |
| ConsentRuns.ResetClearsThePair | app/services/interop_gateway_service.py:283-285 | It clears the links of the two identifiers of the ambiguous case and no other |
| ConsentRuns.GatewayKeepsOrder | app/services/interop_gateway_service.py:206-474 | Each event of the gateway keeps the consents of a person and kind one after another |
| ConsentRuns.WorkflowReadIsJustified | app/interop/workflow/definitions.py:100-127 | The workflow engine takes the latest grant, or makes one, in one step and reads in a later one without looking at it again: the read is justified exactly when the grant has then not run out, covers the fields and has not been withdrawn before |
| ConsentRuns.EngineGrantExactlyWhen | app/interop/workflow/definitions.py:114-122 | A grant that the engine makes fits in with the other consents exactly when no request for that person and kind is waiting |
| ConsentRuns.OrderIsKeptExactlyWhen | app/interop/workflow/definitions.py:100-122 | In a run of both, the consents stay one after another, so that a person has one open consent and the latest grant decides, exactly as long as the engine makes no grant while a request is waiting |
| ConsentRuns.EngineOvertakes | app/interop/workflow/definitions.py:114-122 | A request waits, the engine makes a grant, the citizen grants the waiting one: later the latest grant has run out, the other is in force, and the gateway would ask again |
| ConsentRuns.WorkflowReadsAnyway | app/interop/workflow/definitions.py:100-127 | It takes a grant that has run out, and reads under one withdrawn between its two steps |
| Submission.EveryRunIsHonest | app/services/government_service.py:5 | In every run, with overlapping and failing workers and repeated jobs, the row says submitted only after the adapter answered with success, and every call of the adapter follows a request made with consent |
| Submission.PromiseHoldsExactlyWhen | app/services/government_service.py:6 | In a run nothing leaves without consent if and only if nothing is sent while a withdrawal is the last word on consent since a request that found it |
| Submission.CallHasConsentExactlyWhen | app/services/government_service.py:74-117 | Every call follows a request that found consent, and is made with consent exactly when no withdrawal has been the last word since |
| Submission.SentAfterWithdrawal | app/services/government_service.py:74-117 | Consent withdrawn while the job waits: the complaint is sent all the same |
| Submission.StepIsHonest | app/services/government_service.py:59-131 | Each single step keeps that: a request, a first transaction, a call, a second transaction, a worker that stops |
| Submission.SubmittedOnce | app/services/government_service.py:91-131 | When workers neither overlap nor stop half-way, the adapter succeeds at most once for a complaint and platform, and submitted is final |
| Submission.OverlapSendsTwice | app/services/government_service.py:96-127 | Two overlapping workers can both succeed, and a second one that fails takes a submitted row back to failed |
| Submission.CrashSendsTwice | app/services/government_service.py:103-117 | A worker that stops after its call can lead to a second success |
| Schedules.AtMostOnceExactlyWhen | app/services/government_service.py:91-131 | A schedule of requests and workers succeeds at most once whatever the adapter answers, if and only if the worker of each call has finished before the worker of the next call starts |
| Schedules.AfterIsARun | app/services/government_service.py:59-131 | What a schedule comes to with given answers is a run, once the attempts that did nothing are left out |
| Packing.ChunkDocument | app/rag/chunking.py:178-242 | Refused exactly when the configuration is; otherwise the chunks are the fold of the layout of the document, of which the next rows speak |
| ChunkLimits.RefusedExactlyWhen | app/rag/chunking.py:53-57 | A configuration is refused exactly for a minimum below 1 or above the maximum, or an overlap below nought or not below the maximum |
| Packing.LayoutSpellsTheDocument | app/rag/chunking.py:178-229 | Leaving out carried words and repeated headers, the chunks before the final fold spell out every prose word and table row in order, each under its own heading and from its own page; a chunk begins with carried text only if the one before was full, and has the page of its first piece only if it does not |
| ChunkPages.EveryBreakHasAReason | app/rag/chunking.py:207-228 | Prose goes on in a new chunk under the same heading only because the next piece had no room in the one before, and the end of that one is carried over if the overlap admits it |
| Packing.Packer.AddPiece | app/rag/chunking.py:212-228 | The chunk being filled and those laid become what adding the piece makes of them |
| Packing.PieceAddedOk | app/rag/chunking.py:212-228 | A piece joins the chunk being filled, after flushing and carrying over when it does not fit; nothing is lost, reordered or put under another heading |
| Packing.Packer.CarryOver | app/rag/chunking.py:215-222 | Going back from the end while the overlap admits the next piece carries what dropping pieces from the front until it fits leaves |
| Packing.CarryIsLongest | app/rag/chunking.py:215-222 | What is carried is the longest run of pieces from the end within `overlap_tokens` |
| Packing.Packer.AddTable | app/rag/chunking.py:202-206 | The chunks laid become what adding a table makes of them: the pending text flushed, then each part of the table |
| Packing.PartsLaidOk | app/rag/chunking.py:202-206 | A table is emitted apart, in parts that add up to it |
| Packing.Packer.AddProse | app/rag/chunking.py:207-228 | The chunks laid and pending become what adding a block makes of them: its sentences, the long ones cut, one piece after the other |
| Packing.BlockAddedOk | app/rag/chunking.py:201-228 | A block adds exactly its words or rows, in order, under its heading and from its page, to what was there |
| ChunkLimits.PiecesEndWithSentences | app/rag/chunking.py:210-212 | The pieces of a block are its words in order; none runs over the end of a sentence, and one that ends elsewhere is the last or a full part of a sentence over the limit |
| ChunkLimits.SentenceIsCut | app/rag/chunking.py:211 | A sentence within the limit stays whole; a longer one is cut into parts of which all but the last are full |
| Packing.PendingFlushed | app/rag/chunking.py:195-199 | Flushing emits all that is pending as one chunk, and what may be carried is a suffix of it |
| Packing.ProseChunkSize | app/rag/chunking.py:214-228 | The summed piece estimates of a prose chunk, and so its words, are at most `max_tokens + overlap_tokens`, its own estimate is at most that of so many words, and only a chunk with a single new piece exceeds `max_tokens` |
| ChunkPages.PageIsRightExactlyWhen | app/rag/chunking.py:215-226 | A chunk is recorded under the page its own text begins on exactly when that is the page of the first piece of the last chunk, at or before it, that carries nothing over |
| ChunkPages.PagesOfDocument | app/rag/chunking.py:215-226 | Without overlap, or with one page number throughout, every chunk is recorded under the page its own text begins on |
| ChunkExamples.WrongPage | app/rag/chunking.py:215-226 | A document of two short pages whose second chunk has new text from page two only and is recorded under page one |
| Packing.FoldKeepsText | app/rag/chunking.py:231-242 | The fold only concatenates the last two texts, and the folded chunk has at most `max_tokens + min_tokens + 1` estimated tokens |
| ChunkLimits.FoldsExactlyWhen | app/rag/chunking.py:231-238 | The last two chunks become one exactly when both are prose under one heading, the last is below the minimum and both together are within the maximum and the minimum |
| ChunkPages.SpelledExactlyWhen | app/rag/chunking.py:231-242 | Leaving out carried words and repeated headers, the chunks returned spell the document exactly, unless the last two were folded and the last began with carried text |
| ChunkPages.FoldRepeatsCarriedText | app/rag/chunking.py:231-242 | Then the folded chunk is the text of the one before, the carried end of that text once more, and the new text |
| ChunkExamples.RepeatedWord | app/rag/chunking.py:231-242 | A document "a b", "c", "d" comes back as the one chunk "a b c c d" |
| Packing.PartsAreTheTable | app/rag/chunking.py:162-175 | The parts of a table, headers counted once, are its rows |
| Chunking.ParseBlocks | app/rag/chunking.py:120-153 | The loops over pages and lines compute the blocks, which hold every prose word and table row in order, each under the last heading before it and on its page; none is blank |
| Chunking.LineReadOk | app/rag/chunking.py:137-150 | Each line adds its words or its row, or changes the heading, and ends just what it has to end |
| ChunkBlocks.BlocksAreRuns | app/rag/chunking.py:120-153 | Reading line by line with a paragraph and a table being collected gives exactly the longest runs of text lines and of table lines of each page, each under the last heading before it |
| ChunkBlocks.OneBlockPerRun | app/rag/chunking.py:136-151 | A page has one block for each line of text or table that does not follow a line of its own kind, so a blank line keeps two tables apart and nothing but a line of another kind does |
| ChunkBlocks.TableLineExactlyWhen | app/rag/chunking.py:80-81 | A table line has two bars or two tabs |
| ChunkBlocks.BlankExactlyWhen | app/rag/chunking.py:137 | A blank line holds nothing but white space |
| Chunking.SplitTable | app/rag/chunking.py:162-175 | A large table of at least three rows is split into parts that repeat the header, hold each body row once and in order, exceed the limit only with a single body row, and could not have taken the next row |
| ChunkText.SplitSentences | app/rag/chunking.py:95-109 | The merged parts are exactly the groups of words that end at a terminator not preceded by an abbreviation or a single letter; no word is lost |
| ChunkLimits.FullStop | app/rag/chunking.py:108-110 | A full stop at the end of a word ends a sentence exactly unless what is before it, in lower case, is an abbreviation or a single character |
| ChunkLimits.OtherMarks | app/rag/chunking.py:40 | The other four marks always end a sentence, and no other character does |
| ChunkText.SplitAfterKeepsWords | app/rag/chunking.py:95-109 | Splitting into sentences loses and reorders no word |
| ChunkText.SplitLongPieces | app/rag/chunking.py:156-159 | The pieces of a long sentence are its words in order, each piece within the limit |
| ChunkText.WordsOfJoin | app/rag/chunking.py:71-72 | Splitting words joined with spaces gives the words back, so estimates of joined text count its words |
| ChunkText.TokensOfSum | app/rag/chunking.py:71-72 | The estimates of two texts and of their concatenation differ by at most one |
| ChunkLimits.TokensNearest | app/rag/chunking.py:71-72 | The estimate is the integer nearest to 1.3 times the words, the even one halfway |
| ChunkLimits.StepIsLargest | app/rag/chunking.py:156-159 | A long sentence is cut after the largest number of words whose 1.3-fold is within the limit, or after each word |
| Trend.FitIsLeast | app/services/analytics_service.py:112-117 | No line has a smaller sum of squared residuals than the fitted one, and no other line has as small a one |
| Trend.NormalEquations | app/services/analytics_service.py:112-117 | The residuals of the fitted line sum to zero, and so do their products with the distance from the mean |
| Trend.LinearSeriesIsFitted | app/services/analytics_service.py:112-118 | The fit of an exactly linear series is that line, with no residual |
| Trend.LinearSeriesHasNoBand | app/services/analytics_service.py:119-127 | An exactly linear series is extrapolated along its line, cut off at zero, with lower, value and upper equal |
| Trend.ForecastLinear | app/services/analytics_service.py:107-127 | Too few points are reported; at most one point that is enough divides by zero; otherwise each of the `horizon` points follows the fitted line with 0 <= lower <= value <= upper |
| TrendBand.BandIs | app/services/analytics_service.py:119-123 | Half the width of the band, squared, is 1.96 squared times the residual sum of the best line over its degrees of freedom times 1 + 1/n + 12 (x - (n - 1)/2)^2 / (n (n^2 - 1)) |
| TrendBand.BandWidens | app/services/analytics_service.py:121-123 | Each point further ahead has a band at least as wide, and a wider one unless the series lies on a line |
| TrendBand.SpreadAboutMean | app/services/analytics_service.py:114-115 | The squared distances of n points from their mean add up to n (n^2 - 1) / 12 |
| TrendBand.PointIs | app/services/analytics_service.py:122-126 | Each point is in whole hundredths and nearest to the fitted line and to the two ends of its band, all cut off at nought |
| Reference.GenerateReference | app/services/reference.py:21-26 | The reference is the parts joined by hyphens, with the check symbol of its prefix, day and body |
| Reference.GeneratedValidates | app/services/reference.py:21-33 | Checked with its own prefix a generated reference validates if and only if the prefix is two to five upper-case letters; checked without one, if and only if the prefix is so after stripping and upper-casing and these leave the weighted sum the same modulo 31 |
| Reference.LowerCasePrefixes | app/services/reference.py:21-33 | Checked without a prefix, a reference generated for "no" validates and one generated for "cl" does not |
| Reference.CleanedGenerated | app/services/reference.py:30 | Stripping and upper-casing a generated reference changes its prefix and nothing else |
| Reference.IsValidReference | app/services/reference.py:29-33 | Accepts exactly the texts that, stripped and upper-cased, parse, have the wanted prefix, and carry the right check symbol |
| ReferenceText.SpaceAround | app/services/reference.py:30 | White space around a reference does not count |
| Reference.CheckChar | app/services/reference.py:14-18 | The loop computes the position-weighted sum modulo 31 |
| Reference.ParseOfFormat | app/services/reference.py:11 | The format determines its parts |
| Reference.SubstitutionNoticed | app/services/reference.py:14-33 | In a reference already stripped and upper-cased, a changed character in the date or the body goes unnoticed exactly when it fits the format and counts the same modulo 31 |
| Reference.SubstitutionRejected | app/services/reference.py:29-33 | A character of the body typed as any other, or an ASCII digit of the date as another, goes unnoticed exactly where upper-casing turns it back into the one it replaces |
| Reference.TypedSubstitutionNoticed | app/services/reference.py:29-33 | A character typed wrong in the date or the body goes unnoticed exactly when its upper-case form is one character that fits there and counts the same modulo 31 |
| Reference.CheckSubstitutionRejected | app/services/reference.py:29-33 | The check symbol typed as any character goes unnoticed exactly where that is no white space and upper-casing turns it into the right symbol |
| Reference.LowerCaseLetterPasses | app/services/reference.py:30 | A letter of the body, or the check letter, typed in lower case passes |
| Reference.LowerCaseExample | app/services/reference.py:30 | The reference CL-20260919-AAAAAAA with its check symbol passes with one letter in lower case |
| Reference.SwapNoticed | app/services/reference.py:14-33 | Swapping two neighbours within the date or the body goes unnoticed exactly when they count the same modulo 31, upper-casing included |
| Reference.SwapRejected | app/services/reference.py:14-33 | Swapping two different neighbours, ASCII digits of the date or symbols of the body, is always rejected, upper-casing included |
| Reference.ValuesDiffer | app/services/reference.py:9-17 | Different symbols of the alphabet, and different ASCII digits, count differently modulo 31 |
| Reference.OtherDigitsPass | app/services/reference.py:11-17 | A digit of another script can stand in unnoticed: a zero of the date changed to U+06F8 still validates |
| Reference.AlphabetInRanges | app/services/reference.py:9 | The position of a symbol by ranges is its position in the alphabet as written |
| Reference.WeightCannotHide | app/services/reference.py:16-18 | 31 is prime and every weight is below it, so a weighted difference vanishes only with the difference |
| Accounts.AlwaysGoverned | app/services/auth_service.py:137-373 | In every run of the operations, by actors whose contexts are current, once there is an active super-admin there always is one, and the bootstrap never works again |
| Accounts.GovernedThroughoutExactlyWhen | app/services/auth_service.py:137-373 | With contexts that may be out of date there always is one exactly as long as no change of role or deactivation takes the last one away |
| Accounts.PrivilegedUntouched | app/services/auth_service.py:137-373 | In every run in which no super-admin acts and none is set up the privileged accounts stay as they are, whatever the contexts |
| Roles.SameHolders | app/core/authorization.py:116 | By name: as long as no super-admin acts and none is set up, the same accounts are admin, super-admin, integration admin and auditor, and active or not as before |
| Roles.StaffRoleHasASource | app/services/auth_service.py:196-240 | In every run a role other than citizen was there from the start or was given: officer by an admin or super-admin, any other by a super-admin or in setting up the first one |
| Roles.RoleIsLastGiven | app/services/auth_service.py:225-240 | An account has the role it was given last |
| Roles.RoleChangeTable | app/core/authorization.py:185-195 | A super-admin may give anybody else any role; an admin may make others citizen or officer who are one or the other; nobody else may change roles |
| Roles.SwitchingTable | app/services/auth_service.py:242-247 | An account is switched on or off by another: by a super-admin, or by anybody where it is a citizen's or an officer's |
| Roles.CreationTable | app/core/authorization.py:185-195 | Staff are made by super-admins, and officers by admins too |
| Roles.OfficersArePlaced | app/services/auth_service.py:234-236 | In every run that starts so, each officer has a department with a name |
| Accounts.EmailsStayUnique | app/services/auth_service.py:148-220 | In every run no two accounts get the same address |
| Accounts.StepKeeps | app/services/auth_service.py:137-373 | Each single operation, by its checks and its effect, keeps an active super-admin and leaves privileged accounts to super-admins |
| Accounts.AuthService.ChangeRole | app/services/auth_service.py:225-240 | Succeeds exactly with the right to assign the role, a super-admin for a privileged account, never one's own account, and a department for an officer; ends every session of the account |
| Accounts.AuthService.SetActive | app/services/auth_service.py:242-253 | Never one's own account, a privileged account only by a super-admin; deactivation ends every session |
| Accounts.AuthService.CreateStaff | app/services/auth_service.py:209-223 | An account is made exactly for a role the actor may assign, never a citizen, an officer only with a department, with acceptable credentials and an unused address |
| Accounts.AuthService.BootstrapFirstAdmin | app/services/auth_service.py:156-178 | Makes a super-admin exactly with the right token, no super-admin on record, acceptable credentials and an unused address |
| Accounts.AuthService.Register | app/services/auth_service.py:137-154 | Makes an account exactly with a name, acceptable credentials and an unused address, and it is always a citizen's |
| Accounts.AuthService.Login | app/services/auth_service.py:256-298 | Succeeds exactly when an active account has that address and password; opens one session of it, with the role of the stored row |
| Accounts.AuthService.Authenticate | app/services/auth_service.py:306-320 | Succeeds exactly for a live session of an active user; the context is what the row says now, and the session was opened under that role and password |
| Accounts.AuthService.SetPassword | app/services/auth_service.py:337-339 | A new password ends every session of the account |
| Accounts.AuthService.ResetPassword | app/services/auth_service.py:361-373 | Works exactly for a token not used and within its hour with an acceptable password; the token is then used, and every session of the account ends |
| Accounts.AuthService.Logout | app/services/auth_service.py:322-329 | Ends exactly the session of the token |
| Accounts.AuthService.ChangePassword | app/services/auth_service.py:332-340 | Works exactly with the current password and an acceptable new one; every session of the account ends |
| Accounts.AuthService.RequestPasswordReset | app/services/auth_service.py:342-359 | Issues one token, for an hour, exactly when an active account has that address, and to that account |
| Accounts.RevokedForGood | app/core/security.py:159-164 | In every run of the operations a revoked session is never accepted again |
| Accounts.AcceptedSessionIsUndisturbed | app/services/auth_service.py:225-373 | In every run a session that is accepted was opened under the role its account still has, and no change of role or password, no deactivation and no logout came between |
| Sessions.AcceptedExactlyWhen | app/core/security.py:136-164 | In every run a session is accepted exactly when no change of role or password, deactivation or logout came after the login, the login is no longer ago than the session may last and its last use no longer ago than it may be idle: 60 and 14 days on a phone, else as the policy says |
| Sessions.AcceptedInTime | app/services/auth_service.py:306-320 | So every request that was accepted came within both limits |
| Sessions.OpenedBefore | app/services/auth_service.py:306-320 | Every session that was not there at the start was opened by a login |
| Sessions.ResetWorksExactlyWhen | app/services/auth_service.py:357-364 | A reset token works exactly within the hour after it was issued, the last second included, and until it has been used |
| Accounts.ResetWorksOnce | app/services/auth_service.py:361-373 | In every run a reset token works once |
| Accounts.RowChanged | app/core/authorization.py:189-195 | A change the rules allow, by an actor whose context is current, keeps an active super-admin and touches privileged accounts only for a super-admin |
| Accounts.GovernedExactlyWhen | app/services/auth_service.py:225-253 | Whoever acts, a change of one row leaves an active super-admin exactly when the row is one afterwards or another row is one |
| Accounts.StaleContextLosesTheLast | app/services/auth_service.py:242-249 | A context that outlived its role is enough to lose the last super-admin, when it may deactivate that very account |
| Mfa.MfaAccount.VerifyLogin | app/services/mfa_service.py:152-180 | A time code passes exactly when the first step it fits in the window is later than every step used; any other code passes exactly when it is a listed backup code, and is struck off once |
| Mfa.MfaAccount.ConfirmEnrolment | app/services/mfa_service.py:131-149 | Each refusal has its exact condition; the confirming code fits the window, its step counts as used, and the backup codes are stored hashed |
| Mfa.MfaAccount.BeginEnrolment | app/services/mfa_service.py:122-129 | Refused while enabled; otherwise a new secret under which no code has been accepted |
| Mfa.MfaAccount.Disable | app/services/mfa_service.py:182-189 | Turns it off exactly with a fresh password check and a code that passes |
| Mfa.NoReplay | app/services/mfa_service.py:164-169 | Under one enrolment no time step is accepted twice (RFC 6238, section 5.2) |
| Mfa.Match | app/services/mfa_service.py:57-63 | The first matching step of the window, if there is one |
| ConnectorHealth.Registration.RecordCall | app/interop/connector_registry.py:50-72 | Counters are exact, health follows the last call and the failure rate, and the rounded average stays within the drift bound |
| ConnectorHealth.AverageWithin | app/interop/connector_registry.py:69-70 | After `n` calls the rounded running average is within the drift per call, `0.0025 (n + 1) - 0.005 / n`, of the true mean |
| ConnectorHealth.DriftPerCall | app/interop/connector_registry.py:69-70 | That is the drift per call in closed form |
| ConnectorHealth.SmallChangesAreLost | app/interop/connector_registry.py:70 | A call leaves the average as it is exactly when it is closer to it than half a hundredth per call made, or just that close and the average an even number of hundredths |
| ConnectorHealth.DriftIsReached | app/interop/connector_registry.py:69-70 | For every `n` a run of ever longer calls, of which none moves the average, whose distance from the true mean is exactly that |

## Left out

- Hotspots.MeridianPairMissed: the distance formula is a parameter, of which only its value along a meridian is used; the radius of 6371 km gives about 111195 metres to the degree.
- Hotspots.AggregateHotspots: cosine and great-circle distance are parameters, coordinates and means are reals.
- RedisWindow.AtMostTwiceTheLimit: the clock of the store only moves forward and TTL is exact; rounding of TTL to seconds and failures of Redis other than a process stopping are not modelled.
- RateLimits.ResilientLimiter.Hit: what Redis answers is a parameter; `RedisFailureThrottle` and `ResilientThrottle` are not modelled.
- ResilientBound.OneProcess: a hit that Redis accepts is dated by its INCR; that it is one of the hits of a run of the Redis limiter is a hypothesis.
- Bm25.BM25Index.Search: scores are reals and the logarithm is a parameter that increases and is nought at one; tokenisation and upper-casing are parameters.
- Vectors.InMemoryVectorIndex.Add: vectors are reals, so non-finite ones do not occur; the norm is a parameter, which VectorGeometry takes to be the Euclidean one.
- RagIndex.RagIndex.AddDocument: failures of the chunk store or the lexical index themselves (running out of memory) do not occur.
- IndexSync.IndexSynchronizer.Refresh: the source shows versions that never go back and loads the content of the version it listed; a document that changes between the two calls is not modelled, nor is the lock.
- Fusion.ReciprocalRankFusion: scores and weights are reals.
- Retrieval.HybridRetriever.Retrieve: embedding and the chat model are parameters with arbitrary outcomes; words, stop words and digits are parameters; other vector stores than the in-memory one are not modelled.
- IdentityResolution.IdentityStore.ResolvePerson: identifiers are drawn from a counter instead of at random; names are compared by a parameter between 0 and 1, which NameSimilarity shows the code's own similarity to be.
- Gateway.InteropGateway.RequestDocumentExchange: a request is one atomic step with one reading of a clock that does not go back; overlapping transactions, connector answers, quality rules, events, audit rows and the update of Department B are parameters or left out.
- CitizenAccount.CitizenAccountFor: what counts as a digit is a parameter.
- MatchThresholds.ScoreThresholds: scores are reals.
- ConsentRuns.WorkflowReadIsJustified: of the workflow engine only its consent step and the read under it are stated; its identity step, retries and branches are left out.
- Submission.EveryRunIsHonest: one complaint and one platform; attempts, audit rows, notifications and what the adapter does inside a call are left out.
- Packing.ProseChunkSize: the bound is for chunks before the final fold; the folded chunk is bounded in Packing.FoldKeepsText.
- Chunking.ParseBlocks: white space, heading patterns and trimming are parameters; the extraction of identifiers from chunks is left out.
- ChunkText.SplitSentences: works on the words of the flattened text, of which the pattern splits at a blank after a terminator.
- Trend.ForecastLinear: over the reals, with a square root that is only known to be zero at zero and not negative; TrendBand takes the square root over the reals.
- Reference.IsValidReference: white space, the digit class and the upper-case forms of characters outside ASCII are parameters; changed prefix letters are not claimed to be noticed.
- Reference.GenerateReference: the random body and the eight-digit day are parameters.
- Accounts.AuthService.Login: the throttle is in RateLimits and not called here; hashing, the password policy and e-mail normalisation are parameters; client kinds other than web and mobile do not occur; names and the second-factor mark of a session are left out.
- Mfa.MfaAccount.VerifyLogin: the throttle, the encryption of the secret and the audit rows are left out; the code of a secret at a time step is a parameter.
- ConnectorHealth.Registration.RecordCall: service levels, alerts and timestamps are left out.
- Thrift.Reader.Val: a double is its eight bytes, and the interpreter's recursion limit is not modelled.
- The column types of the migration generator, duplicate detection, the adapters of government platforms, complaint status and timelines, legal text, authorisation of single records, and all network, file, user-interface and language-model calls.
