# carbon-clickhouse in Dafny

carbon-clickhouse receives metrics, spools them into chunk files and uploads each chunk to several
ClickHouse tables. This project models the parts of it that have to agree with each other, and proves
that they do:

- the life of a chunk file, from the writer over the table directories to its removal, over all
  interleavings, failures, crashes and restarts: what it keeps safe and what it gets done
  (`ChunkLifecycle`, `ChunkInvariant`, `ChunkSafety`, `ChunkProgress`, `ChunkExample`, `UploadQueue`);
- the confirmed store of the gRPC receiver: buffers, WaitGroup, one-slot error channel
  (`ConfirmedStore`, `ConfirmedStoreSafety`, `ConfirmedStoreProgress`);
- the fast Prometheus unpacker against the plain one, on every marshalled request (`Pb`, `Prompb`,
  `PrompbEncoder`, `Prometheus`, `PrometheusReceiver`, `PrometheusAgreement`, `PrometheusStores`);
- what the tagged and the index uploader write for a name and for a file, and that their cache of
  known keys agrees with having no cache (`TaggedUploader`, `TaggedFile`, `IndexUploader`, `IndexFile`,
  `IndexCached`, `CachedUpload`, `KeyCache`, `SeriesKeys`, `TableRows`);
- RowBinary buffers, their writer, and the reader that recovers what is left of a file that was cut
  (`RowBinary`, `WriteBuffers`, `RowWriter`, `RecordReader`, `Recovery`, `DottedPath`), and the formats byte
  by byte (`Formats`);
- tag canonicalisation and escaping (`Escape`, `TaggedNames`, `TagSort`, `Graphite`,
  `GraphiteLength`);
- three self-contained algorithms: the pattern trie (`Blacklist`), cutting a TCP stream into lines
  (`TcpFraming`, `DoubleDots`), the search for the day of a timestamp (`DayTable`).

Protocols are state machines: `Enabled` and `Apply` give one step, `IsRun` a run, and the theorems
speak of the state after any run from a start state. Code that works by changing things is imperative
Dafny: loops over arrays and reused buffers, proved against functions on byte strings, about which the
theorems are stated. A byte is a number below 256 and a Go string or slice a sequence of bytes; fixed
widths and their wrap-around are written out. A float is its 64 bits. Varints and fields follow the
sections "Base 128 Varints" and "Message Structure" of the Protocol Buffers Encoding specification,
percent-encoding sections 2.1 and 2.3 of RFC 3986.

`dafny verify dfyconfig.toml` checks everything.

## Where the code differs from what one may expect

- `escapeTo` (helper/escape/url.go:165-188) drops a last byte that needs no escaping when the byte
  before it does: `Escape.EscapeToAgreesWithEscape` has the exact condition, and `Graphite.Lossy` what
  it means for a printed name.
- `unescape` turns `+` into a space everywhere, but path escaping leaves `+` alone: a name comes back
  from the uploader's parser if and only if it is not empty and holds no `+`
  (`TaggedNames.ParsePrintedMetric`).
- The fast Prometheus path gives the drop rules an empty name (receiver/prometheus.go:101), so the
  rule for long names has no effect there; it does not escape the metric's name, writes no `?` when
  there are no other labels, and drops labels with an empty name or value. `PrometheusAgreement.NamesAgree`
  has the exact condition. Its sort is not stable, which can show only when a label name comes with
  two values: `PrometheusAgreement.PlainNamesAgreeIfSorted` has the condition,
  `PrometheusAgreement.RepeatedNamesDiffer` an input.
- `tags.Prometheus` without a `__name__` label leaves out the first label after sorting.
- `RowBinary.Writer` takes names of 524239 to 524264 bytes or refuses them depending on how full the
  buffer at hand is (`RowWriter.AcceptedNames`).
- `Index.parseName` compares its first estimate with the room in a buffer that it empties only
  afterwards, counts two of its four leaf rows, and marks prefixes as known before their rows are
  certain to be kept. No name of up to 87368 bytes runs past the buffer, and without the rows of the
  day none of up to 262131 (`IndexUploader.NamesFit`); a name of 87369 bytes that ends in two dots
  does (`IndexUploader.NamesFitLimit`), and `IndexUploader.DotFreeNamesFit` has the exact lengths for
  names without dots. Every stored name has rows for all of its prefixes if and only if no prefix
  that an overflow marked is one of a name stored later in the file (`IndexFile.PrefixesStoredOnce`);
  in `IndexFile.MarkedButNotStored` one is. Among small names nothing overflows
  (`IndexFile.SmallNamesStored`).
- `Index.parseFile` remembers a name before its rows are certain to be kept, so a name that overflows
  is skipped from then on without having been stored (`IndexCached.OverflowedIsNotParsed`).
  `IndexCached.StepParses` and `IndexCached.ReadsAllowed` say exactly for which records and files the
  parser does as a cache that agrees with having none needs it to.
- A confirmed request none of whose points survives the drop rules waits for ever, because its empty
  buffer is given back without being counted off (`ConfirmedStoreSafety.WithoutSurvivorsNoEnd`). The
  same happens to a request with an empty list of metrics.

## Model

| member | source | states |
|---|---|---|
| `ChunkSafety.GoneMeansUploaded` | writer/cleanup.go:14-43 | in every reachable state, a file that was written and is gone from the data directory has been uploaded to every configured table, each time with its whole final content |
| `ChunkSafety.WrittenMeansUnlinked` | writer/writer.go:146-242 | the file being written is in the data directory and in no table's, under neither name, and no goroutine is linking it: closing comes before linking |
| `ChunkSafety.PassClearsGone` | writer/cleanup.go:75-110 | in every run: a file whose data is gone never comes back, and when a pass that was not yet on the table directories ends without an error, no entry of the file, finished or not, is left in any of them, whatever the other goroutines did meanwhile |
| `ChunkSafety.UploadedOnce` | uploader/base.go:175-214 | a table gets a file at most once, plus once for each crash and each failed rename of it, although the scanner works from stale listings |
| `ChunkSafety.StartRelinks` | writer/link.go:13-66 | after a crash at any point, a start that gets through linking has every file on disk linked to, or finished in, every table |
| `ChunkSafety.OpenFileStays` | uploader/base.go:175-214 | while a worker has a file open or is about to rename it, its link and its data stay |
| `ChunkSafety.RunInv` | writer/writer.go:87-100 | every run of writer, linkers, cleaner and uploaders, with crashes, keeps the invariant behind the other theorems |
| `ChunkProgress.ClosedIsLinked` | writer/link.go:13-66 | in every run without a failed link, whatever crashes: every file on disk but the one being written is, for each table, linked to it, finished in it, or with a goroutine still to come to it; after a crash, once the new start has passed the file |
| `ChunkProgress.LinkerGoesOn` | writer/link.go:13-43 | a linking goroutine can always take its next step, and each step of its own brings it nearer to its end |
| `ChunkProgress.ScannedIsUploaded` | uploader/base.go:65-214 | a scan by an idle uploader, followed by any steps of anybody in which nothing goes wrong: when the uploader is idle again, every file of the listing has been uploaded to the table and its link is renamed, or gone with the data |
| `ChunkProgress.UploaderGoesOn` | uploader/base.go:175-214 | until it is idle an uploader with a worker has a step that goes well, and each brings it nearer to idleness |
| `ChunkProgress.PassRemovesFinished` | writer/cleanup.go:14-87 | a pass that begins when a file is finished in every table, and meets no error, has removed the data when it turns to the table directories |
| `ChunkProgress.UploadsAreWrites` | writer/writer.go:265-309 | every upload of a file, to any table, is exactly what the writer wrote while the file was the current one, in order |
| `ChunkProgress.FinishedForGood` | uploader/base.go:144-153 | over all runs, crashes and stale listings: once a table has a file renamed it never gets it again, and the file stays renamed as long as its data is there |
| `ChunkExample.LifeOfAFile` | writer/writer.go:87-309 | a run, for any table, name and contents: a file is written, linked, uploaded once and whole, and nothing of it is left on disk |
| `ChunkExample.UploadedThrice` | uploader/base.go:175-214 | a run that reaches the bound: with one crash and one failed rename a table gets a file three times |
| `ChunkExample.FailedCreate` | writer/writer.go:200-228 | a run in which a file cannot be created: it is linked all the same, the next one is tried, and a pass removes the link that leads nowhere |
| `ChunkExample.StartFails` | writer/writer.go:87-100 | runs in which an error of the first pass, or of a link, stops the start |
| `ChunkInvariant.RemoveDataInv` | writer/cleanup.go:14-43 | removing a file's data, after every table was seen to have finished it, keeps the invariant |
| `ChunkInvariant.LinkMakeInv` | writer/link.go:13-43 | making one link, after the two checks, keeps the invariant, whatever happened between the checks and the call |
| `ChunkInvariant.RenamedInv` | uploader/base.go:144-153 | renaming an uploaded file keeps the invariant |
| `UploadQueue.NoFileHeldTwice` | uploader/base.go:65-128 | however scans, sends and workers interleave, no two workers hold the same file, and a held file is neither queued nor about to be |
| `UploadQueue.RunKeepsConsistent` | uploader/base.go:65-128 | the names queued, pending and held are pairwise distinct and exactly the `inQueue` set, over every run |
| `UploadQueue.ScanMarksAll` | uploader/base.go:110-127 | over runs: once a scan is through, every file of its listing was in `inQueue` at some state since it began |
| `UploadQueue.WorkIsBounded` | uploader/base.go:110-214 | between two scans an uploader takes only so many steps, whatever fails |
| `UploadQueue.QueueIsBounded` | uploader/uploader.go:28-36 | the channel holds 1024 files at most, a send waits exactly while it is full, and the workers stay as many as they were |
| `ConfirmedStoreSafety.SuccessMeansStored` | receiver/grpc.go:112-184 | if the request succeeds, its surviving points are, in order, those of the buffers sent, and each of these was written and flushed without an error, once |
| `ConfirmedStoreSafety.CounterIsExact` | helper/RowBinary/write_buffer.go:35-59 | the wait counter is always the buffers obtained less those confirmed or failed, and never negative |
| `ConfirmedStoreSafety.FailureIsVisible` | helper/RowBinary/write_buffer.go:49-55 | once the counter is zero, a failure of any buffer is in the error channel |
| `ConfirmedStoreSafety.WaitEnds` | receiver/grpc.go:160-184 | when all buffers sent have been handled, the wait ends if and only if some point survived the drop rules |
| `ConfirmedStoreSafety.WithoutSurvivorsNoEnd` | receiver/grpc.go:160-161 | without a surviving point no run of the request ends |
| `ConfirmedStoreSafety.RunInv` | writer/writer.go:265-283 | every run of request and writer, with write and flush errors, rotations and foreign buffers, keeps the protocol's invariant |
| `ConfirmedStoreProgress.SucceedsIfStored` | receiver/grpc.go:173-188 | a finished request that was not cancelled has succeeded if and only if every buffer it sent was stored |
| `ConfirmedStoreProgress.WorkingRunSucceeds` | receiver/grpc.go:173-188 | when every write and flush works and nothing is cancelled, a request can only end in success |
| `ConfirmedStoreProgress.BuffersAreFull` | receiver/grpc.go:138-162 | every buffer sent fits 524288 bytes, and all but the last had no room for the next point |
| `ConfirmedStoreProgress.NeverStuck` | receiver/grpc.go:112-190 | until it is finished a request with a surviving point always has a next step, its own or the writer's, whatever the writes come to |
| `ConfirmedStoreProgress.WorkIsBounded` | receiver/grpc.go:112-190 | and there are only so many of them: at most twenty for each point, six for each buffer in the channel or arriving, and thirteen |
| `ConfirmedStoreProgress.WrittenIsAccounted` | writer/writer.go:265-300 | every buffer ever written is held by the output, on disk, or was dropped by a change of files that failed; right after a flush that works none is held |
| `ConfirmedStoreProgress.CancelRacesSend` | receiver/grpc.go:139-172 | a request can be cancelled exactly while it waits to send |
| `GraphiteLength.NameLength` | helper/tags/graphite.go:71-128 | a printed name is at most three times as long as what it was printed from, plus one |
| `GraphiteLength.ValidNamesFit` | receiver/grpc.go:95-97 | a name that passes the length check fits an empty buffer when printed, so a new buffer always takes the point |
| `PrometheusAgreement.RequestsAgree` | receiver/prometheus.go:29-171 | on every marshalled request whose label sets are plain and give no label name two values, and whose names the long-name rule lets through, the fast unpacker leaves the same buffers, byte for byte, and the same counters as the plain one |
| `PrometheusAgreement.RequestsAgreeAnyLength` | receiver/prometheus.go:29-171 | for names of any length: the fast unpacker does what the plain one does with the rule for long names switched off |
| `PrometheusAgreement.FastIgnoresLength` | receiver/prometheus.go:29-127 | on any bytes, well-formed or not, that rule has no effect on the fast unpacker |
| `PrometheusStores.RequestStores` | receiver/prometheus.go:129-184 | the buffers of a request hold, whole and in order, one point for each sample that is no NaN and not refused by the drop rules, told as arithmetic on bits and seconds: with its series' name, its bits, the request's time as version, and its milliseconds as seconds in 32 bits |
| `PrometheusStores.FastRequestStores` | receiver/prometheus.go:29-127 | and so do those of the fast unpacker, but for the rule for long names |
| `PrometheusStores.StoredSecond` | receiver/prometheus.go:101-105 | for times from 1970 to 2106 the stored timestamp is the second that the time lies in |
| `PrometheusStores.FastWrites` | receiver/prometheus.go:47-127 | on any bytes the fast unpacker only hands points of this request's time to the writer, and flushes it exactly when it got through |
| `PrometheusStores.CutRequest` | receiver/prometheus.go:47-127 | a request cut within a series: an error, the points of the series before, none of the cut one, and no flush |
| `PrometheusStores.PrometheusThenTagged` | helper/tags/prometheus.go:15-61 | the tagged uploader makes of a series' name its name label, with spaces for `+`, and its other labels, all of them, sorted |
| `PrometheusAgreement.NamesAgree` | receiver/prometheus_metric.go:132-187 | when no label name comes with two values, the two forms name a series alike if and only if the name needs no path escaping, there is another label, and no label name or value is empty |
| `PrometheusAgreement.PlainNamesAgreeIfSorted` | receiver/prometheus_metric.go:132-187 | for any such label set, repeated label names included, they name it alike if and only if the exchange sort leaves the labels after the name in the order of the stable sort |
| `PrometheusAgreement.RepeatedNamesDiffer` | receiver/prometheus_metric.go:163-171 | a label set that gives a name two values, on which the two forms differ |
| `PrometheusAgreement.SeriesAgree` | receiver/prometheus_metric.go:74-187 | the same for one series, whatever the samples, including none |
| `PrometheusAgreement.ParsePrintedSeries` | receiver/prometheus_metric.go:74-130 | on the encoder's output the walker finds exactly the complete labels and the offset of the first sample |
| `PrometheusAgreement.ParsePrintedSample` | receiver/prometheus.go:77-95 | on the encoder's output the sample loop gets value and timestamp back, a negative zero as zero |
| `PrometheusReceiver.UnpackFast` | receiver/prometheus.go:29-127 | the loops over reused buffers compute the functional form on any bytes, and store what `PrometheusStores.RequestStored` says for a marshalled request of plain series |
| `PrometheusReceiver.UnpackDefault` | receiver/prometheus.go:129-184 | the loops over the decoded messages compute the functional form, and store what `PrometheusStores.RequestStored` says |
| `PrometheusReceiver.MetricBuffer.TimeSeries` | receiver/prometheus_metric.go:74-187 | the result depends on the series alone, not on labels, metric or escape cache left from others |
| `PrometheusReceiver.MetricBuffer.SortRest` | receiver/prometheus_metric.go:155-171 | skipping the sort of labels in order is the same as sorting them, and stale labels behind do not matter |
| `PrometheusReceiver.MetricBuffer.UrlQueryEscape` | receiver/prometheus_metric.go:57-71 | with the cache or without, the query-escaped bytes |
| `PrometheusReceiver.PrintPrometheus` | helper/tags/prometheus.go:20-52 | the printed name, for labels with or without `__name__` |
| `TagSort.ExchangeSortIsStableSort` | receiver/prometheus_metric.go:163-171 | when no key has two values the exchange sort is the stable sort, and it touches nothing outside its range |
| `TagSort.ExchangeSortKeepsSorted` | receiver/prometheus_metric.go:155-161 | the sort leaves a list in order alone, ties included |
| `Prompb.ReadDelimited` | helper/pb/pb.go:62-89 | a length-delimited field is read back whatever follows |
| `Prompb.SkipDelimited` | helper/pb/pb.go:91-118 | and skipped exactly |
| `Prompb.Uint64OfVarint` | helper/pb/pb.go:20-29 | a 64-bit varint is read back whatever follows |
| `Pb.ReadUint64` | helper/pb/pb.go:20-29 | the loop reads a varint of any length modulo 2^64, and reports a cut one |
| `Pb.ReadBytes` | helper/pb/pb.go:62-89 | the loop reads a length and that many bytes; a length beyond `int` is a panic |
| `Pb.SkipField` | helper/pb/pb.go:91-118 | one field is skipped by its wire type, an unknown one is an error |
| `PrompbEncoder.Marshal` | helper/prompb/remote.pb.go:147-175 | the size computed is exact, every write is inside the array, and the array holds the request's encoding |
| `PrompbEncoder.MarshalSeriesTo` | helper/prompb/types.pb.go:215-245 | labels, then samples, at the moving index |
| `PrompbEncoder.MarshalLabelTo` | helper/prompb/types.pb.go:257-275 | empty strings are left out |
| `PrompbEncoder.MarshalSampleTo` | helper/prompb/types.pb.go:186-203 | zeros are left out, of either sign |
| `PrompbEncoder.SeriesSize` | helper/prompb/types.pb.go:363-379 | the size loop gives the number of bytes written |
| `PrompbEncoder.EncodeVarint` | helper/prompb/types.pb.go:342-350 | the loop writes the varint and moves on by its length |
| `PrompbEncoder.VarintLength` | helper/prompb/types.pb.go:424-433 | the loop counts a varint's bytes |
| `Varint.ReadUvarintRoundTrip` | helper/RowBinary/reader.go:108-112 | every 64-bit number is read back from its varint, whatever follows |
| `TaggedUploader.TagsBuffers.Parse` | uploader/tagged.go:121-182 | from any earlier buffer contents: the error or the rows the name asks for, the buffer holds exactly those rows, and no write is cut or out of range |
| `TaggedUploader.RowsDecode` | uploader/tagged.go:121-182 | without an error the buffer decodes to one row for the name tag and each tag, in order, or for the name tag alone if the metric or `*` is ignored, each with day, path, the full tag list and version |
| `TaggedUploader.EstimateBounds` | uploader/tagged.go:137-170 | the estimate is never below the true encoded size, for estimates up to 2^28 |
| `TaggedUploader.UntaggedEstimate` | uploader/tagged.go:137-170 | without tags it is not below the true size if and only if the lengths of name tag and path take at most 12 bytes together |
| `TaggedUploader.PrintedTagsAreStored` | uploader/tagged.go:91-182 | a metric printed with its tags is stored in one row for its name and each tag, or for its name alone if it is ignored, with exactly those tags after its name's own, in which a `+` has become a space; only an empty name is refused |
| `TaggedUploader.SmallNamesFit` | uploader/tagged.go:137-170 | a name for which, with `k` one more than its `=`, `k * (37 + 2 * length + 4 * k) + length < 524288` never overflows |
| `TaggedNames.ParsePrintedMetric` | uploader/tagged.go:91-119 | parsing a printed metric gives back name and tags if and only if the name is not empty and holds no `+`; and what it gives otherwise |
| `TaggedNames.ParsePrintedTags` | uploader/tagged.go:103-117 | parsing the printed tags gives back the exact list `key=value` |
| `TaggedNames.PrintTagsInjective` | helper/tags/prometheus.go:38-48 | two tag lists are printed alike only if they are equal |
| `TaggedNames.NameBuffers.TagsParseToSlice` | uploader/tagged.go:91-119 | the loop over the tag part, whatever the buffers held |
| `TableRows.TaggedRowsRoundTrip` | uploader/tagged.go:172-179 | the bytes of any rows decode to exactly those rows |
| `TableRows.IndexRowsRoundTrip` | uploader/index.go:48-101 | the same for the index table |
| `IndexUploader.IndexBuffers.Parse` | uploader/index.go:34-104 | from any state of buffer and known prefixes: overflow, write out of range, or a buffer that holds exactly the name's rows; and which prefixes become known |
| `IndexUploader.RowsDecode` | uploader/index.go:34-104 | without an error the buffer decodes to exactly: the name at level 20001 plus dots, each written prefix at 20000 plus its dots, the reversed name at 30001 plus dots, and, unless disabled, name and reversed name of the day at 1 and 10001 plus dots |
| `IndexUploader.IndexBuffers.WritePrefixes` | uploader/index.go:54-80 | the upward walk writes the prefixes up to the first known one or the first without room |
| `IndexUploader.NamesFit` | uploader/index.go:34-104 | no name of up to 87368 bytes, or 262131 without the rows of the day, is written out of range, whatever is known and whatever the buffer holds |
| `IndexUploader.NamesFitLimit` | uploader/index.go:34-104 | 87368 is the limit: a name of 87369 bytes on which a write is out of range |
| `IndexUploader.DotFreeNamesFit` | uploader/index.go:38-104 | names without dots, whatever the buffer holds: the guard refuses exactly what it has no room for, and of the rest exactly the names longer than 131059 bytes, or 262131 without the rows of the day, are written out of range |
| `IndexUploader.AncestorsArePrefixes` | uploader/index.go:54-80 | the walk over last dots visits exactly the prefixes that end in a dot |
| `IndexUploader.PathLevel` | uploader/utils.go:13-21 | the level is one more than the dots |
| `IndexFile.PrefixesStoredOnce` | uploader/index.go:139-220 | in any file no prefix has two rows, and each that has one is a prefix of a stored name; every stored name has a row for each prefix that ends in a dot if and only if no prefix marked by an overflow is one of a name stored later |
| `IndexFile.SmallNamesStored` | uploader/index.go:139-220 | that holds for every file whose names satisfy `2 * (dots + 4) * (length + 13) <= 524288`: nothing overflows there |
| `IndexFile.MarkedButNotStored` | uploader/index.go:60-72 | names after whose overflow a prefix of a stored name has no row |
| `IndexFile.ParseFile` | uploader/index.go:139-220 | the loop over the records, with its buffers, writes the rows and returns the keys of the specification |
| `IndexFile.CountIsKeys` | uploader/index.go:184-218 | each name counted is one key marked |
| `IndexCached.StepParses` | uploader/index.go:166-216 | a record is a parsing step of the cached upload if and only if it is skipped, or stored with no prefix lost to an earlier overflow, or overflows with the rows of the day disabled and the name already stored in this file |
| `IndexCached.OverflowedIsNotParsed` | uploader/index.go:192-210 | a name whose step is none: it is marked as done with no row written |
| `IndexCached.ReadsAllowed` | uploader/index.go:139-220 | over a whole file, whatever the cache answers: the parser is allowed every step if and only if every record is complete in that sense, and then it marks the keys and writes the rows of the run |
| `IndexCached.FileAgreesWithoutCache` | uploader/cached.go:63-112 | such a file, read by a worker at any time and among any others, is a run of the cached upload; after its insert the worker remembers exactly the marked keys, and the table holds what it would hold without a cache |
| `IndexCached.SmallIsComplete` | uploader/index.go:34-104 | every record of a file of small names is complete |
| `TaggedFile.NextParses` | uploader/tagged.go:241-278 | each record is a parsing step of the cached upload: all rows of the name are written, and marked only then |
| `TaggedFile.ParseFile` | uploader/tagged.go:217-281 | the loop over the records, with its buffers, writes the rows and returns the keys of the specification |
| `TaggedFile.MarksAreCounted` | uploader/tagged.go:241-278 | each key marked is a name counted |
| `TaggedFile.ReadName` | uploader/tagged.go:241-278 | a new name with tags is counted, and marked and written unless it raises an error |
| `TaggedFile.FileAgreesWithoutCache` | uploader/cached.go:63-112 | a whole file, read by a worker at any time and among any others, is a run of the cached upload; after its insert the worker remembers exactly the marked keys, and the table holds what it would hold without a cache |
| `CachedUpload.CacheAgrees` | uploader/cached.go:63-112 | over any run of concurrent uploads, failures, retries, expiry and reset: all rows of every cached key are stored, and the table holds exactly what the same inserts would have stored without a cache |
| `CachedUpload.RunInv` | uploader/cached.go:58-112 | every run keeps the invariant behind it |
| `CachedUpload.ReadsAreRun` | uploader/cached.go:63-100 | a parser that is allowed each of its steps takes its worker through a whole file, whatever the others do in between, and ends with every row it wrote and every key it marked |
| `CachedUpload.MarkedIsCached` | uploader/cached.go:100-112 | unless keys are forgotten, a worker that is done with a file has put every key it marked into the cache |
| `CachedUpload.StoredTwiceOfThree` | uploader/cached.go:58-112 | a run, for any rows: an upload fails, the file is stored, is skipped while its key is remembered, and is stored again after the key has expired |
| `SeriesKeys.KeyInjective` | uploader/tagged.go:254-255 | different days or names never share a key |
| `KeyCache.KnownHashes` | uploader/cmap.go:33-41 | two known values of the hash that chooses the shard |
| `KeyCache.CMap.Exists` | uploader/cmap.go:73-81 | the shard that is asked knows the key exactly if the map has it |
| `KeyCache.CMap.Add` | uploader/cmap.go:84-89 | sets one key of the map |
| `KeyCache.CMap.Merge` | uploader/cmap.go:91-95 | sets all keys to the value |
| `KeyCache.CMap.Count` | uploader/cmap.go:44-53 | the sum over the shards is the number of keys |
| `KeyCache.CMap.Clear` | uploader/cmap.go:55-64 | empties the map, and returns 0 |
| `KeyCache.CMap.Expire` | uploader/cmap.go:97-124 | keeps exactly the entries that are not older than the deadline, counts the others, and finds the oldest of the rest |
| `Recovery.WrittenThenRead` | helper/RowBinary/reader.go:104-199 | whatever points are written and wherever the file is cut, the reader finds exactly the accepted points wholly before the cut |
| `RecordReader.CutRecords` | helper/RowBinary/reader.go:104-169 | of any encoded points cut anywhere, exactly the whole ones are read, and nothing is accessed out of range |
| `RecordReader.CutBytes` | helper/RowBinary/reader.go:175-199 | what `Read` serves of them are their encodings, well formed also when names are reversed and versions zeroed |
| `RecordReader.Reader.ReadRecord` | helper/RowBinary/reader.go:156-169 | each call hands out the next record, and after the first error none ever again |
| `RecordReader.Reader.Read` | helper/RowBinary/reader.go:175-199 | fills the target from the pending bytes in order, loses none, leaves the rest of the target alone, and reports the end only with nothing read |
| `RecordReader.ReadInto` | helper/RowBinary/reader.go:175-199 | any sequence of target sizes gets the pending bytes, concatenated |
| `RecordReader.Reader.ReadRecordBody` | helper/RowBinary/reader.go:104-154 | one record for any input: its bytes, an error, or an access out of the line |
| `RecordReader.AccessorsOfPoint` | helper/RowBinary/reader.go:34-52 | the accessors give a point's value, timestamp, day and version |
| `RecordReader.ShownTwice` | helper/RowBinary/reader.go:125-127 | reversing shown names again gives the names |
| `Formats.FirstRecord` | helper/RowBinary/reader.go:108-162 | of a length and what follows it: a record exactly if all is there, fits 524288 bytes, and has the day of its timestamp; an access out of range exactly if it would not fit |
| `Formats.ShownNames` | helper/RowBinary/reader.go:127-129 | a name is reversed, segment by segment, exactly if that is asked for and it has no `?` |
| `RowWriter.BuffersHoldAccepted` | helper/RowBinary/writer.go:57-123 | the buffers sent hold the accepted points in order: no record is split, no buffer is empty or larger than its size |
| `RowWriter.SentBytes` | helper/RowBinary/writer.go:57-123 | they concatenate to the encodings of the accepted points |
| `RowWriter.CallsAreCounted` | helper/RowBinary/writer.go:73-131 | points written and write errors add up to the calls, modulo 2^32 |
| `RowWriter.AcceptedNames` | helper/RowBinary/writer.go:80-88 | no name up to 524238 bytes is refused, none that fits no buffer is accepted |
| `RowWriter.AcceptedExactly` | helper/RowBinary/writer.go:73-123 | a point is accepted exactly if the buffer at hand has 23 bytes more than its name left, or the name has up to 524238 bytes |
| `RowWriter.CountsAreExact` | helper/RowBinary/writer.go:73-131 | the two counters are the points accepted and the points refused, modulo 2^32 |
| `RowWriter.SendsWhenFull` | helper/RowBinary/writer.go:57-123 | the writer sends its buffer only when the next point has no room in it, and never an empty one |
| `RowWriter.Writer.WritePoint` | helper/RowBinary/writer.go:73-95 | one point more in the current buffer, in a new one, or one error more |
| `RowWriter.Writer.WritePointTagged` | helper/RowBinary/writer.go:97-123 | the same for a name in parts |
| `RowWriter.Writer.Flush` | helper/RowBinary/writer.go:57-71 | a buffer that is not empty is sent on |
| `WriteBuffers.WriteBuffer.WriteTagged` | helper/RowBinary/write_buffer.go:93-117 | the parts with their separators, as one field; nothing for an empty list |
| `WriteBuffers.WriteBuffer.WriteReversePath` | helper/RowBinary/write_buffer.go:128-144 | the field of the reversed path |
| `WriteBuffers.WriteBuffer.WriteGraphitePoint` | helper/RowBinary/write_buffer.go:170-176 | the record is added whole when the guard allows it |
| `RowBinary.EncodeFits` | helper/RowBinary/write_buffer.go:186-189 | the guard leaves room for the longest varint and the numbers |
| `Formats.PointLayout` | helper/RowBinary/write_buffer.go:119-176 | the bytes of a point: name with its length, value, timestamp, day, version, low bytes first |
| `Formats.IndexRowLayout` | uploader/index.go:47-52 | the bytes of an index row: day, level, path with its length, version |
| `Formats.TaggedRowLayout` | uploader/tagged.go:172-180 | the bytes of a tagged row: day, tag, path, the tags as an array, version |
| `Formats.KnownRequest` | helper/prompb/remote.pb.go:147-175 | a request of one series with one label and one sample, byte by byte, as Protocol Buffers has it |
| `Formats.SkippedFields` | helper/pb/pb.go:91-125 | a field of any number is skipped exactly, for each wire type, and the unknown wire types are refused |
| `Formats.EscapedCharacters` | helper/escape/url.go:32-107 | which characters a query and a path keep, and what the others become |
| `Formats.KnownPrinted` | helper/tags/prometheus.go:38-61 | a metric with a space in its name and in a value, printed |
| `Formats.KnownKey` | uploader/index.go:178-182 | the key of day 19000 and the name `a.b` |
| `Formats.LessIsLexicographic` | helper/tags/graphite.go:98-98 | keys are ordered byte by byte, a prefix first |
| `DottedPath.ReverseMetricInplace` | helper/RowBinary/reader.go:61-83 | reversing all and then each segment, in place, is split on dots, reverse, join |
| `DottedPath.ReverseBytesTo` | helper/RowBinary/reader.go:85-102 | so is placing segments from the end, empty ones included |
| `DottedPath.ReversePathInvolution` | helper/RowBinary/reader.go:61-102 | reversing a path twice gives it back |
| `DottedPath.ReversePathMembers` | helper/RowBinary/reader.go:61-102 | a reversed path has the same bytes |
| `Escape.UnescapeUndoesQuery` | helper/escape/unescape.go:34-98 | unescaping query-escaped bytes gives them back, for all byte strings |
| `Escape.UnescapeUndoesPath` | helper/escape/unescape.go:34-98 | for path-escaped bytes if and only if they hold no `+` |
| `Escape.EscapeToAgreesWithEscape` | helper/escape/url.go:165-188 | `escapeTo` gives what `escape` gives if and only if it is not the last byte alone that follows the last escaped one, and loses just that byte otherwise |
| `Escape.EscapeTo` | helper/escape/url.go:165-188 | the loop over runs appends just that to any builder |
| `Escape.Escape` | helper/escape/url.go:109-163 | counting first and filling an array of that size, and the two shortcuts, all escape byte by byte |
| `Escape.EscapedUnchanged` | helper/escape/url.go:122-124 | bytes stay as they are if and only if none needs escaping |
| `Escape.Unescape` | helper/escape/unescape.go:34-61 | the loop decodes as specified, whatever is in the builder |
| `Graphite.CanonicalIsLastWins` | helper/tags/graphite.go:98-114 | after sorting and compacting, the tags are strictly ascending by key, each with its last value in the input |
| `Graphite.SegmentsExactly` | helper/tags/graphite.go:45-69 | a tag part parses to a list of tags if and only if it is those tags, `key=value`, put together with `;`, the keys not empty and without `=` |
| `Graphite.NameExactly` | helper/tags/graphite.go:71-128 | a name is accepted if and only if it has no `;` or is a name and such a tag part; it stays as it is, or is printed with the tags in canonical form |
| `Graphite.CanonicalDependsOnLastWins` | helper/tags/graphite.go:98-114 | two lists come out the same if and only if their last-wins maps are the same |
| `Graphite.NameDependsOnLastWins` | helper/tags/graphite.go:71-128 | so the result depends on the name and that map alone |
| `Graphite.NameIdempotent` | helper/tags/graphite.go:71-128 | a second application changes nothing |
| `Graphite.GraphiteBuffered` | helper/tags/graphite.go:130-184 | the result for any earlier contents of the buffer |
| `Graphite.Graphite` | helper/tags/graphite.go:71-128 | the same result with a buffer of its own |
| `Graphite.Uniq` | helper/tags/graphite.go:100-114 | the compaction in place keeps the last of each run |
| `Graphite.GraphiteBuf.KvParse` | helper/tags/graphite.go:45-69 | the segments, or which check failed |
| `Graphite.PrintMetricToAgrees` | helper/tags/graphite.go:116-127 | the printed name is the fully escaped one if and only if no part loses a byte |
| `Graphite.GraphiteThenTagged` | helper/tags/graphite.go:71-128 | the tagged uploader parses what the receiver prints to what `escapeTo` keeps of name and tags, with spaces for `+` in the name; so to that name and those tags if and only if the name holds no `+` and no part loses a byte |
| `Blacklist.ContainsIsBlacklisted` | uploader/filter.go:84-119 | a value is found if and only if some pattern has as many components and matches each by equality or `*`; the reversed value gets the same answer |
| `Blacklist.SearchFinds` | uploader/filter.go:104-119 | the recursive search finds a name if and only if a path of the tree matches it |
| `Blacklist.InsertAdds` | uploader/filter.go:122-149 | adding a pattern adds its path and no other |
| `Blacklist.BuildTrees` | uploader/filter.go:122-149 | the trees hold the patterns of the group, and the reversed ones |
| `Blacklist.Blacklist.constructor` | uploader/filter.go:56-81 | for every length that some pattern has, both trees, and no others |
| `TcpFraming.HandleConnection` | receiver/tcp.go:55-97 | however the stream is cut into reads, the chunks end in newlines and concatenate to the longest whole-line prefix of what was read; every read makes progress if no line is longer than a buffer, and otherwise no run reads the stream to its end |
| `TcpFraming.LinesIndependentOfReads` | receiver/plain.go:98-119 | so the lines parsed are those of the stream itself |
| `TcpFraming.ParseBuffer` | receiver/plain.go:98-119 | the loop over a chunk finds its lines that are not empty, and tells an unfinished one |
| `TcpFraming.LinesAreParts` | receiver/plain.go:98-156 | the lines are what stands between the newlines, but for what is empty and what follows the last one |
| `DoubleDots.RemoveDoubleDot` | receiver/plain.go:36-51 | the compaction in place leaves out each dot after a dot |
| `DoubleDots.HasDoubleDot` | receiver/plain.go:22-34 | looking at every second byte finds a doubled dot if there is one |
| `DoubleDots.SqueezedIsClean` | receiver/plain.go:36-51 | no doubled dot is left, and doing it again changes nothing |
| `DoubleDots.ComponentsStay` | receiver/plain.go:36-51 | the path keeps its components that are not empty, in order, and its last one |
| `DayTable.PrecalcTimestampToDays` | helper/RowBinary/date.go:33-53 | for any ordered table within a day of UTC the search ends, stays in the table, and gives the one day that contains the timestamp, unless it falls back |
| `DayTable.UtcTableGivesUtcDay` | helper/RowBinary/date.go:72-74 | where local time is UTC it is the UTC day |

## Left out

- Listeners, HTTP, gRPC and TLS set-up, logging, statistics and configuration: an insert into a table is one step that succeeds or fails.
- The pipe, bufio and gzip goroutines of an upload: all bytes are delivered and accepted, or the upload fails.
- The goroutines of writer/*.go and uploader/base.go are steps of state machines, not loops; every system call is one step, and any two may interleave.
- In the chunk life cycle the list of tables stays the same over a run, table directories exist, `os.Stat` fails only because there is no such file, and chunk names are fresh, as nanosecond names are taken to be.
- Data that bufio holds and a crash loses: a file's content is what has been written to disk.
- LZ4, snappy and the hash functions for keys other than the one that keeps the name.
- Float parsing and printing, pickle, JSON and the other line protocols.
- Templates (`toGraphiteTagged`) and the tag map: the tag functions are modelled with templates off. `Graphite` and `GraphiteBuffered` are the same code twice in the source and share it here.
- Generated unmarshal code: the plain Prometheus path starts from the decoded request, which is the marshalled one but for the sign of zeros.
- Local-time arithmetic (`SlowTimestampToDays`) and the filling of the day table: the table, and the conversion from timestamps to days, are parameters.
- Cancelled contexts, but for a confirmed store that is cancelled while it sends.
- Buffer pools: a buffer from the pool is a new one, or an old one with any contents where that matters.
- Room in the output of `PlainParseBuffer`, which it does not check, and the parsing of a line's numbers.
- `uploader/tree.go`, `series.go`, `points.go` and `daily` variants: they repeat the ideas of the index with fewer cases.
- Aliasing of unsafe strings; nested maps of the blacklist are values, so sharing between trees is not modelled.
- A request without metrics at all returns at once, before the protocol of `ConfirmedStore` begins.
- `sort.Stable`, `bytes.IndexByte`, `binary.PutUvarint` and other library functions are given by their meaning.
- TaggedUploader.EstimateBounds: is proved for estimates below 2^28, where no length takes more than four bytes; a name read from a file is at most 524288 bytes. `TaggedUploader.UntaggedEstimate` has the exact condition without tags, which fails only when the two lengths are near 2^42.
- IndexCached.FileAgreesWithoutCache: is stated for files whose records are all complete, because the index marks a name as done before its rows are certain to be kept; `IndexCached.StepParses` says exactly which records are not.
- PrometheusAgreement.RequestsAgree: names that the rule for long names would drop are left out, because the fast path never applies that rule; `PrometheusAgreement.RequestsAgreeAnyLength` covers them.
