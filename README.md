# kafka-rest-api-to-s3 core, modelled in Dafny

The project has two services.

- **REST API.** It accepts events over HTTP and publishes them to Kafka.
  Its NDJSON streaming endpoint, `EventController.ingestStream`, has a copy
  in `EventControllerV2`. The endpoint reads one event per line. The
  `x-ack-mode` header picks fire-and-forget or wait-for-ack. The
  `x-max-in-flight` header bounds the number of unacknowledged submissions
  with a semaphore.
- **S3 sink.** It decodes Avro payloads from Kafka. The decoder is either
  the Confluent wire format or an Object Container File, chosen by
  `CompositeAvroDecoder`. The sink batches the records per topic in
  `WriterRouter`, with a record limit and a flush interval. It resolves
  each topic to a local Parquet path or an S3 object key with
  `TopicMappingResolver`, `ParquetPathBuilder` and `WriteTarget`.

The model has one module per component.

| module | file | what it models |
|---|---|---|
| `JavaText` | `java_text.dfy` | the parts of `String`, `Character` and `Integer` the code relies on: `isBlank`, `trim`, `toLowerCase`, `startsWith`, `endsWith`, `parseInt` |
| `Paths` | `paths.dfy` | the part of `java.nio.file.Path` used here: `Path.of`, `isAbsolute`, `resolve` |
| `WriteTargets` | `write_target.dfy` | `WriteTarget` and `TargetType` |
| `ParquetPathBuilder` | `parquet_path_builder.dfy` | local paths and S3 keys |
| `TopicMappingResolver` | `topic_mapping_resolver.dfy` | topic mapping lookup and target resolution |
| `AvroDecoding` | `avro_decoding.dfy` | `DecodedAvro`, the composite decoder's dispatch and the two decoders' error rules |
| `BatchBuffers` | `batch_buffers.dfy` | the value-level meaning of the router's buffers, and the batching properties |
| `WriterRouter` | `writer_router.dfy` | the classes `BatchBuffer` and `WriterRouter`, updated in place and proved against `BatchBuffers`; also `writeNow`'s choice of writer |
| `IngestHeaders` | `ingest_headers.dfy` | `AckMode.fromHeader` and `parseMaxInFlight` |
| `IngestStream` | `ingest_stream.dfy` | `ingestStream`, modelled as a state machine plus a `StreamSession` class proved against it |

Modelling choices:

- The clock, `UUID.randomUUID()` and the ISO date are parameters.
- The Avro and Confluent libraries are function parameters. `None` stands
  for the library's failure or its `null`.
- A Java exception becomes a `Failure` value. Examples: the resolver's
  `IllegalArgumentException` and the decoders' `AvroDecodingException`.
- `WriterRouter`'s operations return the batches they hand to `writeNow`,
  in order, instead of writing them. `WriteNow` states which writer call
  each batch becomes.
- Schemas and records are type parameters (`S`, `R`), and so is the topic
  type of the router's map (`K`). The router only compares topics for
  equality.

`normalizePrefix` removes only one leading `/` from the trimmed prefix
before it appends a trailing one, so the prefix `"/"` stays `"/"` and
`"//logs"` becomes `"/logs/"`: a normalised S3 prefix can still start with
a slash. `NormalizeRootPrefix` states this, and `NormalizePaddedPrefix`
shows it is the empty-core case of the general rule.

## Model

| member | source | states |
|---|---|---|
| JavaText.Trim | api/src/main/java/com/example/kafkarestapi/web/EventController.java:156 | `String.trim`: the result is empty or starts and ends with a char above U+0020 |
| JavaText.TrimPadded | api/src/main/java/com/example/kafkarestapi/web/EventController.java:156 | trimming a string padded with chars at or below U+0020 on both sides gives back the unpadded string |
| JavaText.LowerChar | api/src/main/java/com/example/kafkarestapi/web/EventController.java:156 | lower-casing a char never changes whether `trim` would remove it |
| JavaText.ToLower | api/src/main/java/com/example/kafkarestapi/web/EventController.java:156 | `toLowerCase` keeps the length and lowers each char independently |
| JavaText.LowerIdempotent | api/src/main/java/com/example/kafkarestapi/web/EventController.java:156 | lower-casing twice is the same as lower-casing once |
| JavaText.ParseInt | api/src/main/java/com/example/kafkarestapi/web/EventController.java:139 | `Integer.parseInt` accepts only an optional sign followed by digits; every result is within the 32-bit signed range |
| JavaText.ParseDecimalString | api/src/main/java/com/example/kafkarestapi/web/EventController.java:139 | `parseInt` reads back a decimal numeral, with or without a sign, exactly when its value fits in an int; otherwise it fails |
| JavaText.DecimalRoundTrip | api/src/main/java/com/example/kafkarestapi/web/EventController.java:139 | the value of the decimal rendering of n is n |
| IngestHeaders.HeaderKey | api/src/main/java/com/example/kafkarestapi/web/EventController.java:156 | the switch key is "" for a missing header, and otherwise starts and ends with a char that `trim` keeps |
| IngestHeaders.ModeOfKey | api/src/main/java/com/example/kafkarestapi/web/EventController.java:156-160 | the switch gives WAIT_FOR_ACK exactly for "wait", "wait-for-ack" and "ack"; every other key, unknown words included, gives FIRE_AND_FORGET |
| IngestHeaders.FromHeader | api/src/main/java/com/example/kafkarestapi/web/EventController.java:155-161 | the mode is WAIT_FOR_ACK exactly when the trimmed, lower-cased header is a wait keyword; a missing header gives FIRE_AND_FORGET |
| IngestHeaders.FromHeaderIgnoresPaddingAndCase | api/src/main/java/com/example/kafkarestapi/web/EventController.java:156 | surrounding whitespace and letter case do not change the switch key, so they do not change the mode |
| IngestHeaders.LowerKeyStable | api/src/main/java/com/example/kafkarestapi/web/EventController.java:156 | a key that is already trimmed and lower-cased is its own switch key |
| IngestHeaders.LowerTrimmed | api/src/main/java/com/example/kafkarestapi/web/EventController.java:156 | lower-casing a trimmed string leaves it trimmed |
| IngestHeaders.WaitKeywordsSelectWait | api/src/main/java/com/example/kafkarestapi/web/EventController.java:156-158 | every padded or differently cased spelling of a wait keyword selects WAIT_FOR_ACK |
| IngestHeaders.FireAndForgetKeywords | api/src/main/java/com/example/kafkarestapi/web/EventController.java:156-157 | a missing header, "", "faf" and "fire-and-forget" select FIRE_AND_FORGET |
| IngestHeaders.MixedCaseWaitHeader | api/src/main/java/com/example/kafkarestapi/web/EventController.java:156-158 | `" Wait-For-ACK\t"` selects WAIT_FOR_ACK |
| IngestHeaders.ParseMaxInFlight | api/src/main/java/com/example/kafkarestapi/web/EventController.java:134-143 | the bound is between 0 and Integer.MAX_VALUE; a missing, blank or non-numeric header gives 0 |
| IngestHeaders.ParseMaxInFlightDecimal | api/src/main/java/com/example/kafkarestapi/web/EventController.java:134-143 | a padded decimal header reads back as its value when it fits in an int, and as 0 when it does not |
| IngestHeaders.ParseMaxInFlightNegative | api/src/main/java/com/example/kafkarestapi/web/EventController.java:139 | any negative number, even one that overflows an int, gives 0 |
| IngestHeaders.NonNumericHeader | api/src/main/java/com/example/kafkarestapi/web/EventController.java:138-142 | a non-blank header whose trimmed form does not start with a sign or a digit gives 0 |
| IngestStream.Init | api/src/main/java/com/example/kafkarestapi/web/EventController.java:67-74 | the stream starts open, with nothing published, pending or answered, and satisfies the invariant; there is a semaphore exactly for wait mode with a positive bound |
| IngestStream.Enabled | api/src/main/java/com/example/kafkarestapi/web/EventController.java:81-109 | under the invariant, a bounded wait-mode line can be read exactly while the reader is in its loop and fewer than maxInFlight submissions are in flight (`acquireUninterruptibly`); a completion exists exactly for each in-flight submission |
| IngestStream.Next | api/src/main/java/com/example/kafkarestapi/web/EventController.java:81-116 | a step never changes the mode, the bound or whether there is a semaphore; the published events and the response lines only grow, by at most one each |
| IngestStream.Run | api/src/main/java/com/example/kafkarestapi/web/EventController.java:76-120 | a run keeps the configuration, and what was published and answered before it stays a prefix of what is after it |
| IngestStream.RunPublishes | api/src/main/java/com/example/kafkarestapi/web/EventController.java:81-93 | any run publishes exactly the events of its non-blank, parsable lines, in input order; blank lines, end of input and completions publish nothing |
| IngestStream.NextInv | api/src/main/java/com/example/kafkarestapi/web/EventController.java:76-120 | every event that can happen keeps the invariant: a line read, end of input, or a producer completion |
| IngestStream.ReadLineInv | api/src/main/java/com/example/kafkarestapi/web/EventController.java:81-112 | reading a line keeps the invariant. A blank line changes nothing; an unparsable one ends the response with an error and publishes nothing. Otherwise the event is published; fire-and-forget writes its "queued" line at once; wait mode takes a permit when bounded, increments inFlight and makes the event pending, with no line yet |
| IngestStream.CompletionInv | api/src/main/java/com/example/kafkarestapi/web/EventController.java:99-109 | a completion keeps the invariant. It decrements inFlight, removes exactly its id from the pending submissions and releases a permit when bounded. While the response is open it writes one "acked" (success) or "failed" line for that id. It completes the response exactly when it is the last one after the end of input |
| IngestStream.RunInv | api/src/main/java/com/example/kafkarestapi/web/EventController.java:76-120 | every reachable state satisfies the invariant |
| IngestStream.StreamGuarantees | api/src/main/java/com/example/kafkarestapi/web/EventController.java:62-123 | in every run from the headers: the published events are exactly the submitted lines' events, in input order; inFlight never exceeds the bound when there is one; the response completes normally exactly when input is done and nothing is in flight; fire-and-forget answers one "queued" line per submitted line, in input order; a completed wait-mode response answers every submitted line exactly once |
| IngestStream.InvGuarantees | api/src/main/java/com/example/kafkarestapi/web/EventController.java:62-123 | the guarantees above, read off the invariant of any state |
| IngestStream.BlankLineIgnored | api/src/main/java/com/example/kafkarestapi/web/EventController.java:82-84 | a blank line changes nothing |
| IngestStream.CompletionAtEndOfInput | api/src/main/java/com/example/kafkarestapi/web/EventController.java:113-116 | end of input completes the response at once exactly when nothing is in flight |
| IngestStream.CompletionByLastAck | api/src/main/java/com/example/kafkarestapi/web/EventController.java:99-108 | after end of input, the last acknowledgment writes its line and completes the response |
| IngestStream.CompletionFreesPermit | api/src/main/java/com/example/kafkarestapi/web/EventController.java:95-105 | when the bound is reached the next wait-mode submission blocks, and one completion unblocks it |
| IngestStream.FireAndForgetScenario | api/src/main/java/com/example/kafkarestapi/web/EventController.java:81-116 | two events around a blank line give two "queued" lines in order, then completion |
| IngestStream.StreamSession.constructor | api/src/main/java/com/example/kafkarestapi/web/EventController.java:67-74 | the session starts in the initial state of the headers and satisfies the invariant |
| IngestStream.StreamSession.ReadLine | api/src/main/java/com/example/kafkarestapi/web/EventController.java:81-112 | one reader iteration, updating the fields in place as the state machine's line step does, and keeping the invariant |
| IngestStream.StreamSession.EndOfInput | api/src/main/java/com/example/kafkarestapi/web/EventController.java:113-116 | the end of the reader loop, as the state machine's end step, keeping the invariant |
| IngestStream.StreamSession.Complete | api/src/main/java/com/example/kafkarestapi/web/EventController.java:99-109 | the completion callback, as the state machine's completion step, keeping the invariant |
| Paths.Of | s3-sink/src/main/java/com/example/kafka/s3/sink/mapping/ParquetPathBuilder.java:43-44 | `Path.of` gives an absolute path exactly for a string starting with '/', and every name element is non-empty and separator-free |
| Paths.Resolve | s3-sink/src/main/java/com/example/kafka/s3/sink/mapping/ParquetPathBuilder.java:44 | `resolve` returns an absolute argument unchanged and otherwise appends its name elements |
| Paths.OfSegment | s3-sink/src/main/java/com/example/kafka/s3/sink/mapping/ParquetPathBuilder.java:25-27 | `Path.of` on a separator-free string is a single relative name element |
| WriteTargets.LocalFactory | s3-sink/src/main/java/com/example/kafka/s3/sink/writer/WriteTarget.java:9-11 | `local(p)` has type LOCAL, path p, and a null bucket and key |
| WriteTargets.S3Factory | s3-sink/src/main/java/com/example/kafka/s3/sink/writer/WriteTarget.java:13-15 | `s3(b, k)` has type S3, bucket b, key k, and a null path |
| WriteTargets.TagDecidesFields | s3-sink/src/main/java/com/example/kafka/s3/sink/writer/WriteTarget.java:7-15 | the type decides which fields are set, and the four accessors determine the target |
| ParquetPathBuilder.ResolvePrefix | s3-sink/src/main/java/com/example/kafka/s3/sink/mapping/ParquetPathBuilder.java:39-45 | a missing or blank directory keeps the base directory; an absolute one replaces it; a relative one is appended to it |
| ParquetPathBuilder.BuildLocalPath | s3-sink/src/main/java/com/example/kafka/s3/sink/mapping/ParquetPathBuilder.java:21-28 | unless the UUID string itself starts with '/', the local path lies under the resolved prefix: same absoluteness, and the prefix's name elements come first |
| ParquetPathBuilder.LocalPathLayout | s3-sink/src/main/java/com/example/kafka/s3/sink/mapping/ParquetPathBuilder.java:21-28 | the local path is the resolved prefix followed by exactly `topic=<t>`, `date=<d>` and `<uuid>.parquet` |
| ParquetPathBuilder.LocalPathsDistinct | s3-sink/src/main/java/com/example/kafka/s3/sink/mapping/ParquetPathBuilder.java:21-28 | different UUIDs give different local paths |
| ParquetPathBuilder.WithoutLeadingSlash | s3-sink/src/main/java/com/example/kafka/s3/sink/mapping/ParquetPathBuilder.java:52-54 | at most one leading '/' is removed, and exactly one when there is one |
| ParquetPathBuilder.NormalizePrefix | s3-sink/src/main/java/com/example/kafka/s3/sink/mapping/ParquetPathBuilder.java:47-59 | a missing or blank prefix gives ""; otherwise the result ends in '/' and is the trimmed prefix, without one leading slash, with a '/' added only if it did not already end in one |
| ParquetPathBuilder.NormalizeRootPrefix | s3-sink/src/main/java/com/example/kafka/s3/sink/mapping/ParquetPathBuilder.java:47-59 | the prefix "/" normalises to "/" |
| ParquetPathBuilder.NormalizePaddedPrefix | s3-sink/src/main/java/com/example/kafka/s3/sink/mapping/ParquetPathBuilder.java:47-59 | a padded prefix "/core" becomes "core/" for any core not ending in '/' (" /logs " gives "logs/") |
| ParquetPathBuilder.SlashFramedTrim | s3-sink/src/main/java/com/example/kafka/s3/sink/mapping/ParquetPathBuilder.java:48-51 | a padded prefix starting with '/' is not blank and trims to its unpadded form |
| ParquetPathBuilder.NormalizeSlashEndedPrefix | s3-sink/src/main/java/com/example/kafka/s3/sink/mapping/ParquetPathBuilder.java:55-57 | a trailing slash is not doubled: "logs/" stays "logs/" |
| ParquetPathBuilder.BuildS3Key | s3-sink/src/main/java/com/example/kafka/s3/sink/mapping/ParquetPathBuilder.java:30-37 | the key starts with the normalised prefix and ends with `<uuid>.parquet` |
| ParquetPathBuilder.S3KeysDistinct | s3-sink/src/main/java/com/example/kafka/s3/sink/mapping/ParquetPathBuilder.java:30-37 | different UUIDs give different object keys |
| TopicMappingResolver.FirstMatch | s3-sink/src/main/java/com/example/kafka/s3/sink/mapping/TopicMappingResolver.java:23-26 | the index of the first mapping whose non-null topic equals the topic; none exactly when no mapping matches |
| TopicMappingResolver.Resolve | s3-sink/src/main/java/com/example/kafka/s3/sink/mapping/TopicMappingResolver.java:22-40 | "no mapping" is the error exactly when no mapping matches; an S3 target never has a blank bucket |
| TopicMappingResolver.ResolveByFirstMatch | s3-sink/src/main/java/com/example/kafka/s3/sink/mapping/TopicMappingResolver.java:22-40 | the first match decides. A null or LOCAL destination gives the local path under the base directory. S3 gives the mapping's bucket (else the default) and the key under the mapping's prefix (else the default). A null or blank bucket is an error |
| TopicMappingResolver.LaterMappingsIgnored | s3-sink/src/main/java/com/example/kafka/s3/sink/mapping/TopicMappingResolver.java:23-26 | mappings after the first match are never consulted |
| TopicMappingResolver.BlankMappingBucketRejected | s3-sink/src/main/java/com/example/kafka/s3/sink/mapping/TopicMappingResolver.java:34-37 | a blank bucket on the first matching S3 mapping is not replaced by the default, whatever the default, and is an error |
| TopicMappingResolver.DefaultsRejectEveryTopic | s3-sink/src/main/java/com/example/kafka/s3/sink/config/AppProperties.java:15 | with the default configuration (no mappings) every topic is rejected as unmapped |
| TopicMappingResolver.NewMappingIsLocal | s3-sink/src/main/java/com/example/kafka/s3/sink/config/AppProperties.java:59-64 | a mapping that sets only its topic keeps its LOCAL default destination and resolves to a local path under the base directory |
| TopicMappingResolver.BaseDirPath | s3-sink/src/test/java/com/example/kafka/s3/sink/mapping/TopicMappingResolverTest.java:22 | `Path.of("/tmp/base")` is the absolute path tmp/base |
| TopicMappingResolver.LocalScenario | s3-sink/src/test/java/com/example/kafka/s3/sink/mapping/TopicMappingResolverTest.java:20-36 | a LOCAL mapping with directory "local" resolves to `<base>/local/topic=<t>/date=<d>/<uuid>.parquet` |
| TopicMappingResolver.PlainPrefix | s3-sink/src/test/java/com/example/kafka/s3/sink/mapping/TopicMappingResolverTest.java:45 | the prefix "prefix" normalises to "prefix/" |
| TopicMappingResolver.S3Scenario | s3-sink/src/test/java/com/example/kafka/s3/sink/mapping/TopicMappingResolverTest.java:39-56 | an S3 mapping with prefix "prefix" resolves to the default bucket and the key `prefix/topic=<t>/date=<d>/<uuid>.parquet` |
| AvroDecoding.SelectDecoder | s3-sink/src/main/java/com/example/kafka/s3/sink/avro/CompositeAvroDecoder.java:24 | the registry decoder is chosen exactly for a non-null payload of at least 5 bytes whose first byte is the magic 0 |
| AvroDecoding.ContainerDecode | s3-sink/src/main/java/com/example/kafka/s3/sink/avro/AvroDecoder.java:17-32 | success exactly when the payload is non-null, the reader succeeds and there is at least one record; a success carries the file's schema and records |
| AvroDecoding.RegistryDecode | s3-sink/src/main/java/com/example/kafka/s3/sink/avro/SchemaRegistryAvroDecoder.java:26-34 | success exactly when the deserializer returns a record; a success is that single record under its own schema |
| AvroDecoding.Decode | s3-sink/src/main/java/com/example/kafka/s3/sink/avro/CompositeAvroDecoder.java:23-28 | the result is the chosen decoder's result, and every success carries at least one record |
| AvroDecoding.ShortPayloadUsesContainer | s3-sink/src/main/java/com/example/kafka/s3/sink/avro/CompositeAvroDecoder.java:24 | payloads shorter than 5 bytes go to the container decoder |
| AvroDecoding.NonMagicPayloadUsesContainer | s3-sink/src/main/java/com/example/kafka/s3/sink/avro/CompositeAvroDecoder.java:24 | a payload whose first byte is not 0 goes to the container decoder, whatever its length |
| AvroDecoding.NullPayloadRejected | s3-sink/src/main/java/com/example/kafka/s3/sink/avro/CompositeAvroDecoder.java:23-28 | a null payload goes to the container decoder, which rejects it |
| AvroDecoding.SelectionReadsLengthAndFirstByte | s3-sink/src/main/java/com/example/kafka/s3/sink/avro/CompositeAvroDecoder.java:24 | payloads with the same length and first byte go to the same decoder |
| AvroDecoding.WireFrameUsesRegistry | s3-sink/src/main/java/com/example/kafka/s3/sink/avro/CompositeAvroDecoder.java:24-25 | the magic byte plus a 4-byte schema id, followed by any body, goes to the registry decoder |
| BatchBuffers.Drain | s3-sink/src/main/java/com/example/kafka/s3/sink/writer/WriterRouter.java:172-180 | nothing, and no change, for an empty or schema-less buffer. Otherwise all pending records under the buffer's schema, leaving it empty with no last-append time and its schema kept. Nothing is lost |
| BatchBuffers.DrainTwice | s3-sink/src/main/java/com/example/kafka/s3/sink/writer/WriterRouter.java:172-180 | a second drain returns nothing and changes nothing |
| BatchBuffers.DrainInv | s3-sink/src/main/java/com/example/kafka/s3/sink/writer/WriterRouter.java:172-180 | under the buffer invariant, drain returns a batch exactly when records are pending, and it keeps the invariant |
| BatchBuffers.AdoptSchema | s3-sink/src/main/java/com/example/kafka/s3/sink/writer/WriterRouter.java:58-66 | the buffer ends with the incoming schema. It emits a batch exactly when the schema differs and records are pending, and that batch is all the old records under the old schema, leaving none; otherwise the records stay |
| BatchBuffers.WriteStep | s3-sink/src/main/java/com/example/kafka/s3/sink/writer/WriterRouter.java:58-76 | after a write the buffer has the incoming schema and is either stamped with the write time or drained empty with no time |
| BatchBuffers.Write | s3-sink/src/main/java/com/example/kafka/s3/sink/writer/WriterRouter.java:50-84 | a null or empty batch creates no buffer; any other write adds at most the written topic to the map, and every other topic's buffer is unchanged |
| BatchBuffers.WriteStepConserves | s3-sink/src/main/java/com/example/kafka/s3/sink/writer/WriterRouter.java:58-76 | the emitted batches, concatenated in order and followed by what stays buffered, are the old records followed by the new ones |
| BatchBuffers.AdoptSchemaConserves | s3-sink/src/main/java/com/example/kafka/s3/sink/writer/WriterRouter.java:58-66 | the schema check loses and reorders no record |
| BatchBuffers.WriteStepAdoptsSchema | s3-sink/src/main/java/com/example/kafka/s3/sink/writer/WriterRouter.java:58-66 | after a write the buffer's schema is the incoming one |
| BatchBuffers.WriteStepBatches | s3-sink/src/main/java/com/example/kafka/s3/sink/writer/WriterRouter.java:54-76 | a write emits at most two batches, none empty, and all but a leading schema-change batch carry the new schema |
| BatchBuffers.WriteStepSchemaChange | s3-sink/src/main/java/com/example/kafka/s3/sink/writer/WriterRouter.java:58-62 | a schema change first emits the old records under the old schema |
| BatchBuffers.WriteStepBounded | s3-sink/src/main/java/com/example/kafka/s3/sink/writer/WriterRouter.java:71-76 | with a positive maxRecords, a buffer holds fewer than maxRecords records after every write |
| BatchBuffers.WriteStepBelowLimit | s3-sink/src/main/java/com/example/kafka/s3/sink/writer/WriterRouter.java:68-76 | below the limit, with the same schema or an empty buffer, the records are appended, stamped with the write time, and nothing is emitted |
| BatchBuffers.AdoptSchemaKeeps | s3-sink/src/main/java/com/example/kafka/s3/sink/writer/WriterRouter.java:58-66 | a buffer with the incoming schema, or with no records, passes the schema check with its records and emits nothing |
| BatchBuffers.WriteStepAtLimit | s3-sink/src/main/java/com/example/kafka/s3/sink/writer/WriterRouter.java:68-76 | reaching the limit emits the held records followed by the new ones as one batch under the incoming schema and leaves the buffer empty with no time |
| BatchBuffers.WriteStepInv | s3-sink/src/main/java/com/example/kafka/s3/sink/writer/WriterRouter.java:58-76 | a write keeps the buffer invariant |
| BatchBuffers.WriteIgnoresEmpty | s3-sink/src/main/java/com/example/kafka/s3/sink/writer/WriterRouter.java:51-53 | a null or empty batch changes no buffer and emits nothing |
| BatchBuffers.WriteTouchesOneTopic | s3-sink/src/main/java/com/example/kafka/s3/sink/writer/WriterRouter.java:55-76 | only the written topic's buffer changes or appears |
| BatchBuffers.ThreeWritesOneBatch | s3-sink/src/test/java/com/example/kafka/s3/sink/stream/EmbeddedKafkaLocalParquetBatchSizeIntegrationTest.java:62-71 | with maxRecords 3, three single-record writes to a new topic emit nothing, nothing, then one batch of all three records, leaving the buffer empty |
| BatchBuffers.FlushExpiredDisabled | s3-sink/src/main/java/com/example/kafka/s3/sink/writer/WriterRouter.java:116-119 | a null, zero or negative interval flushes nothing |
| BatchBuffers.FlushExpired | s3-sink/src/main/java/com/example/kafka/s3/sink/writer/WriterRouter.java:115-138 | flushExpired keeps every topic and every buffer's schema |
| BatchBuffers.FlushExpiredEffect | s3-sink/src/main/java/com/example/kafka/s3/sink/writer/WriterRouter.java:121-133 | every buffer at least one interval old is drained, every other buffer is unchanged, and the invariant holds |
| BatchBuffers.FlushExpiredInv | s3-sink/src/main/java/com/example/kafka/s3/sink/writer/WriterRouter.java:115-138 | flushExpired keeps every buffer's invariant |
| BatchBuffers.DueBufferDrains | s3-sink/src/main/java/com/example/kafka/s3/sink/writer/WriterRouter.java:127-129 | an expired buffer always yields its whole contents as a batch |
| BatchBuffers.FlushAll | s3-sink/src/main/java/com/example/kafka/s3/sink/writer/WriterRouter.java:140-155 | flushAll keeps every topic and schema, and leaves every buffer that has a schema empty |
| BatchBuffers.FlushAllEmpties | s3-sink/src/main/java/com/example/kafka/s3/sink/writer/WriterRouter.java:140-155 | after flushAll every buffer is empty and keeps its schema |
| BatchBuffers.FlushAllInv | s3-sink/src/main/java/com/example/kafka/s3/sink/writer/WriterRouter.java:140-155 | flushAll keeps every buffer's invariant |
| BatchBuffers.FlushAllBatchPerNonEmpty | s3-sink/src/main/java/com/example/kafka/s3/sink/writer/WriterRouter.java:140-155 | flushAll emits exactly one batch per previously non-empty buffer, holding that buffer's schema and records |
| WriterRouter.BatchBuffer.constructor | s3-sink/src/main/java/com/example/kafka/s3/sink/writer/WriterRouter.java:166-170 | a new buffer has no schema, no records and no last-append time |
| WriterRouter.BatchBuffer.Write | s3-sink/src/main/java/com/example/kafka/s3/sink/writer/WriterRouter.java:58-76 | updates the fields in place as the write step does and returns its batches (so conservation, boundedness and schema adoption carry over) |
| WriterRouter.BatchBuffer.AdoptSchema | s3-sink/src/main/java/com/example/kafka/s3/sink/writer/WriterRouter.java:58-66 | the schema check in place: a different schema drains first; a null schema is replaced |
| WriterRouter.BatchBuffer.Drain | s3-sink/src/main/java/com/example/kafka/s3/sink/writer/WriterRouter.java:172-180 | drain in place, as the value-level drain |
| WriterRouter.WriterRouter.constructor | s3-sink/src/main/java/com/example/kafka/s3/sink/writer/WriterRouter.java:34-48 | a router with no buffers and the configured limit and interval |
| WriterRouter.WriterRouter.Write | s3-sink/src/main/java/com/example/kafka/s3/sink/writer/WriterRouter.java:50-84 | write on the map of buffer objects gives the value-level write's new buffers and batches, and keeps every invariant |
| WriterRouter.WriterRouter.AddBuffer | s3-sink/src/main/java/com/example/kafka/s3/sink/writer/WriterRouter.java:55 | computeIfAbsent: a fresh, empty buffer object for a new topic |
| WriterRouter.WriterRouter.WriteTopic | s3-sink/src/main/java/com/example/kafka/s3/sink/writer/WriterRouter.java:56-79 | the locked step on one topic's buffer; every other topic's buffer is unchanged |
| WriterRouter.WriterRouter.DrainTopic | s3-sink/src/main/java/com/example/kafka/s3/sink/writer/WriterRouter.java:145-150 | drains one more topic's buffer and leaves the others alone |
| WriterRouter.WriterRouter.FlushExpired | s3-sink/src/main/java/com/example/kafka/s3/sink/writer/WriterRouter.java:115-138 | the buffers become the value-level flushExpired. The output holds, once each, the drained batch of every expired topic with one, and nothing else |
| WriterRouter.WriterRouter.FlushDue | s3-sink/src/main/java/com/example/kafka/s3/sink/writer/WriterRouter.java:120-137 | the loop over all buffers with the interval enabled, with the same result as flushExpired |
| WriterRouter.WriterRouter.FlushIfDue | s3-sink/src/main/java/com/example/kafka/s3/sink/writer/WriterRouter.java:122-136 | one iteration: drains and emits the topic only if it has expired |
| WriterRouter.WriterRouter.FlushAll | s3-sink/src/main/java/com/example/kafka/s3/sink/writer/WriterRouter.java:140-155 | every buffer is drained, and the output holds, once each, the drained batch of every topic that had records |
| WriterRouter.WriterRouter.FlushOne | s3-sink/src/main/java/com/example/kafka/s3/sink/writer/WriterRouter.java:142-153 | one iteration of flushAll |
| WriterRouter.WriteNow | s3-sink/src/main/java/com/example/kafka/s3/sink/writer/WriterRouter.java:157-164 | fails exactly when resolution fails, with its error. Otherwise a local target becomes a local write to the target's path, and an S3 target an S3 write to the target's bucket and key, of the same batch |

## Left out

- Concurrency is not modelled. That covers the per-buffer `ReentrantLock`,
  the `ConcurrentHashMap`, and the scheduler thread that runs
  `flushExpired` at a fixed rate. It also covers the reader thread and the
  completion callbacks of `ingestStream`. Each router operation is one
  atomic step, and the stream is a sequential interleaving of reader steps
  and completions.
- The order in which `flushExpired` and `flushAll` visit topics is left
  open, as `ConcurrentHashMap` iteration order is. Their contracts state
  which batches are emitted, not in which order.
- WriterRouter.WriterRouter.Write, FlushExpired and FlushAll return the
  batches instead of calling `writeNow`. An exception thrown by a writer
  part-way through a loop is not modelled, and neither are the writers'
  effects.
- `shutdown` and `createScheduler` are not modelled. They only call
  `flushAll` and configure the scheduler.
- Parquet conversion, the local and S3 writers, Kafka consumption and
  production, and the Avro and Confluent libraries are not modelled.
  Decoding is a function parameter.
- JSON parsing of a line is an input to the stream model: `Some` for a
  parsed request, `None` for a Jackson exception.
- The JSON rendering of acknowledgments and `sendAck`'s failure path are
  not modelled. A failed `emitter.send` ends the response with an error.
- A client disconnect and the I/O error of reading the request body are
  not modelled.
- The single-event `ingest` endpoint is not modelled.
- `Integer.parseInt` is modelled for ASCII digits only. Unicode decimal
  digits, which Java also accepts, are not.
- JavaText.ToLower: models `toLowerCase` only for A–Z and the Kelvin sign,
  one char to one char. Java also lower-cases other letters, and maps
  U+0130 (capital I with dot) to "i" followed by U+0307, which changes the
  length; the model keeps such chars and the length. The keyword
  comparison is still decided the same way: no other char lower-cases to
  an ASCII letter alone, and U+0130 leaves a combining mark that no
  keyword contains. Locale-specific lower-casing is not modelled.
- `Path.of` is modelled for Unix paths: separators '/', and repeated and
  trailing separators dropped. `.` and `..` are kept as ordinary name
  elements, which Java also does without `normalize()`.
- Time is integer epoch milliseconds, with no `Instant` or `Duration`
  overflow.
