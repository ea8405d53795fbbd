# ApiVoy: a verified model of the local store, the wire codecs, the importer and the schedulers

ApiVoy is an API workbench. Behind its user interface are a local store (SQLite tables plus a directory
of content-addressed blobs), protocol drivers that encode and decode bytes on a socket, an importer for
OpenAPI and Postman documents, a gateway that runs scheduled jobs, a capture proxy and a secret store.
This project models those parts in Dafny and proves what they are for.

| part | modules |
|---|---|
| local store | `Forest`, `Tree`, `Envelope`, `Blobs`, `Store`, `StoreLaws`, `StoreRuns`, `LocalStore` |
| incremental decoding, RESP, gRPC, MQTT | `Streaming`, `Decimal`, `Utf8`, `Resp`, `RespSession`, `RespWire`, `Grpc`, `Mqtt`, `MqttSession` |
| import | `Json`, `Limits`, `Structure`, `OpenApi`, `OpenApiLaws`, `DerefCost`, `Dereference`, `Postman` |
| assertions, secrets | `JsonPath`, `Redact` |
| gateway scheduler, capture proxy, project clone | `Scheduler`, `SchedulerRuns`, `Capture`, `CloneProject` |
| shared | `Base`, `Text` |

`dafny verify dfyconfig.toml` checks everything.

## Main results

**Local store.** `Store` describes the database as a value, with a ledger of who holds which blob: request
bodies, execution snapshots, execution responses, and references handed to callers. `StoreRuns` proves for
every sequence of operations from a fresh database: collections stay an acyclic forest whose children share
project and module (`RunKeepsInvariant`); no blob is counted below its holders and no held blob is missing
(`CountsNeverTooLow`); counts equal holders whenever every request is saved under a collection of its own
project (`CountsExact`), which `save_request` does not check, and `NoLeakExactly` says when a project deletion
leaks; the deduplicating store is a plain map from ids to sanitized envelopes (`RunRefines`), and reading
returns the last saved envelope with exactly one exception, inline bodies that begin with the blob marker
(`GetReturnsLastSaved`). `LocalStore` is the class whose methods update the tables in place; each is proved
equal to the corresponding function on values.

**Wire codecs.** `Streaming` proves once that a parser whose verdict survives every extension of its buffer
sees the same frames, the same error and the same leftover however a stream is cut. RESP (recursive
aggregates, with a wire form for every reply) and gRPC framing are instances; MQTT adds base-128 lengths and the delivery handshakes over every
broker transcript.

**Import.** `OpenApi.Expand` is reference substitution without budgets or cycle detection. The traversal with
budgets, document cache and cycle detection is proved to return that substitution, without any `$ref` left,
or to fail for a reason: a limit that the document's cost does break, or a document for which no finite
substitution exists. What a reference means is stated without the traversal's own functions
(`LoneReferenceMeans`, `SiblingsOverride`). The two
explicit-stack loops agree with the recursive definitions they replace.

**State machines and strings.** The scheduler's pacing over ticks, crashes and restarts; the capture proxy's
session under every interleaving; JSONPath compilation; masking of secrets; the clone worklist.

## Properties that do not hold everywhere

Each names the lemmas that show the failing family and the exact condition.

- A request filed under another project's collection loses its blob reference when that project is deleted: `StoreLaws.NoLeakExactly`, and `StoreRuns.LeakingRunLeaks` for a run that does it.
- A small body that itself begins with `@apivoy-blob:` is taken for a marker when it is read: `Blobs.HydrateExactly`, `StoreRuns.GetReturnsLastSaved`, `StoreRuns.SnapshotReadsBack`. Saving it may even answer with an error after the row was written: `StoreLaws.SaveAnswersExactly`.
- Recording an execution with a response blob the caller does not hold makes the count too low, and on a duplicate execution id can remove another row's body: `StoreLaws.RecordKeepsExactly`, `StoreLaws.UnheldDuplicateLosesBody`.
- A secret that starts or ends with `*`, or contains `***`, can be completed by a mask: `Redact.HidesExactlySturdy`.
- An interval of 2^63 seconds or more turns negative in the cast to a signed number. Those for which the clock plus that negative number is still a date are accepted and pace nothing (`SchedulerRuns.WrappedIntervalBursts`); all others of them are refused with a panic. Intervals below 2^63 are paced (`SchedulerRuns.DispatchesApart`).
- A crash after a failed write of the jobs file may repeat dispatches (`SchedulerRuns.LostTickRepeats`) and bring deleted jobs back (`SchedulerRuns.LostDeleteRevives`); `SchedulerRuns.RestartHarmlessExactly` says when a crash is harmless.
- A start of the capture proxy that commits while a session is running puts that session's accept loop out of reach of every stop: `Capture.RacedListenerUnreachable`, `Capture.OneUntoldExactly`.
- OpenAPI references cannot enter arrays, although RFC 6901 allows it: `OpenApiLaws.WalkIsPointer`.

## Model

| member | source | states |
|---|---|---|
| `Forest.NoCycle` | crates/local-store/src/lib.rs:852-932 | in a forest no row is its own proper ancestor |
| `Forest.ReparentKeepsForest` | crates/local-store/src/lib.rs:870-911 | re-parenting under a row that is not below the moved one keeps the forest |
| `Forest.ReparentBelowSelfMakesCycle` | crates/local-store/src/lib.rs:870-911 | hanging a row below itself or a descendant always breaks the forest, so the guard is exact |
| `Forest.CascadeIsSubtree` | crates/local-store/src/lib.rs:255-262 | the foreign-key cascade from one row removes exactly that row and its descendants |
| `Forest.PruneKeepsForest` | crates/local-store/src/lib.rs:255-262 | removing a set closed under children leaves a forest |
| `Tree.CreateProjectKeeps` | crates/local-store/src/lib.rs:646-674 | creating a project keeps the tree invariant and removes nothing |
| `Tree.CreateProjectExactly` | crates/local-store/src/lib.rs:646-674 | the project and its default module appear exactly when the name is not blank and both ids are free; a taken module id leaves the project behind |
| `Tree.CreateModuleKeeps` | crates/local-store/src/lib.rs:676-692 | creating a module keeps the tree invariant and removes nothing |
| `Tree.CreateModuleExactly` | crates/local-store/src/lib.rs:676-692 | one module of that project more, exactly when name, id and project allow it |
| `Tree.CreateCollectionKeeps` | crates/local-store/src/lib.rs:767-831 | creating a collection keeps the invariant; a refused creation changes nothing |
| `Tree.CreateCollectionExactly` | crates/local-store/src/lib.rs:767-831 | done adds exactly one row with the given parent and trimmed name, in the parent's, the requested or the default module; when it fails is stated as an if-and-only-if |
| `Tree.UpdateCollectionKeeps` | crates/local-store/src/lib.rs:852-932 | moving a collection keeps forest, projects and modules consistent, and no collection disappears |
| `Tree.UpdateCollectionExactly` | crates/local-store/src/lib.rs:852-932 | done means: that row has the given parent and trimmed name, exactly the rows below it take the new parent's module, all else is unchanged; it fails exactly on a blank name, a missing row, or a parent that is missing, foreign or below the row |
| `Tree.SubtreeSharesModule` | crates/local-store/src/lib.rs:914-929 | the rows whose module is rewritten are those that had the moved row's module and project |
| `Tree.ProjectCascade` | crates/local-store/src/lib.rs:255-262 | a project's collections are closed under children, so its cascade takes no other project's rows |
| `Tree.PruneProjectKeeps` | crates/local-store/src/lib.rs:739-756 | deleting a project keeps the tree invariant |
| `Tree.PruneProjectExactly` | crates/local-store/src/lib.rs:255-272 | exactly the project's modules and collections go |
| `Tree.PruneCollectionExactly` | crates/local-store/src/lib.rs:255-262 | exactly the collection and what is below it go |
| `Text.TrimIs` | crates/local-store/src/lib.rs:852-865 | what is trimmed off a name is white space and none is left at either end |
| `Envelope.KeepSafeKeepsExactlySafe` | crates/core-domain/src/request.rs:99-135 | the persisted headers are those at exactly the positions not named like a credential, in order |
| `Envelope.SanitizeExactly` | crates/core-domain/src/request.rs:99-112 | token and runtime secrets go, and of the headers exactly those named like a credential; id, name, target, body and other payloads stay |
| `Envelope.CaseIgnored` | crates/core-domain/src/request.rs:115-121 | the case of a letter in a header name does not matter |
| `Envelope.PunctuationIgnored` | crates/core-domain/src/request.rs:115-121 | nor does punctuation |
| `Envelope.CredentialEndings` | crates/core-domain/src/request.rs:123-145 | any name that ends like a token, key, secret or password is a credential |
| `Blobs.PutBlobKeeps` | crates/local-store/src/lib.rs:1126-1178 | storing bytes counts one more reference to a blob holding them, changes no other blob, and fails only on a used id |
| `Blobs.ReleaseKeeps` | crates/local-store/src/lib.rs:1236-1254 | releasing subtracts exactly the released references and removes exactly the emptied rows and files |
| `Blobs.ReleaseStep` | crates/local-store/src/lib.rs:1236-1254 | releasing references one by one, in any order, is releasing them together |
| `Blobs.ReadsBack` | crates/local-store/src/lib.rs:1180-1186 | every blob row reads back the bytes of its digest |
| `Blobs.ExternalizeKeeps` | crates/local-store/src/lib.rs:1284-1299 | an externalised envelope stands for the original envelope, whole body included |
| `Blobs.HydrateExactly` | crates/local-store/src/lib.rs:1301-1328 | a stored envelope reads back as itself if and only if it was externalised, is unmarked, or names a blob of its own body |
| `StoreLaws.PutThenReleaseIsNothing` | crates/local-store/src/lib.rs:1366-1393 | undoing the blob of a failed insert restores the blob table exactly |
| `StoreLaws.SaveRequestLaw` | crates/local-store/src/lib.rs:1330-1407 | the insert keeps all invariants; if it fails nothing changes, and otherwise exactly that row is there, sanitized and whole; it fails exactly on an unknown project or collection or a used blob id |
| `StoreLaws.BodiesAreStored` | crates/local-store/src/lib.rs:1284-1299 | a body over the threshold is in a blob and its marker in the row; a shorter one stays in the row |
| `StoreLaws.SaveAnswersExactly` | crates/local-store/src/lib.rs:1394-1407 | a save answers with an error exactly when the insert failed or a small marked body cannot be looked up afterwards, and with the saved envelope exactly when that look-up is not needed or finds the same body |
| `StoreLaws.MoveRequestLaw` | crates/local-store/src/lib.rs:993-1020 | a move keeps all invariants, changes only where the request is filed, and fails exactly on a missing request or a collection that is missing or foreign |
| `StoreLaws.DeleteRequestLaw` | crates/local-store/src/lib.rs:970-991 | deleting a request releases its blob once and leaves every other request as it was |
| `StoreLaws.DeleteCollectionLaw` | crates/local-store/src/lib.rs:951-968 | deleting a collection removes exactly its descendants and the requests in them; the rest reads as before and nothing leaks; only the default and missing collections are refused |
| `StoreLaws.DeleteProjectLaw` | crates/local-store/src/lib.rs:739-756 | deleting a project removes exactly its rows; the only references not released are those of misfiled requests |
| `StoreLaws.DeletedProjectExactly` | crates/local-store/src/lib.rs:739-756 | after deleting a project exactly the rows that name it or are filed in it are gone, and the rest reads as before |
| `StoreLaws.NoLeakExactly` | crates/local-store/src/lib.rs:1256-1262 | a project deletion leaks nothing if and only if no misfiled request has a blob |
| `StoreLaws.PutForCallerLaw` | crates/local-store/src/lib.rs:1126-1178 | bytes stored for a caller can be read under the id it gets, which counts as one handle of that caller |
| `StoreLaws.RecordExecutionLaw` | crates/local-store/src/lib.rs:1548-1619 | recording inserts the execution with its sanitized snapshot or leaves every table as it was, and accounts for all references either way |
| `StoreLaws.RecordKeepsExactly` | crates/local-store/src/lib.rs:1548-1619 | for every record that passes on a response blob: the store stays consistent if and only if the caller holds that blob, the recording fails before the insert, or a duplicate execution names an unknown blob |
| `StoreLaws.UnheldDuplicateLosesBody` | crates/local-store/src/lib.rs:1608-1617 | a duplicate execution that names the only reference of a request body removes that body while the request still names it |
| `StoreLaws.LongPreviewKept` | crates/local-store/src/lib.rs:1560-1585 | a preview over the threshold is kept whole in a blob |
| `StoreLaws.PreviewReadsBack` | crates/local-store/src/lib.rs:1719-1797 | a recorded preview reads back whole, however long |
| `StoreLaws.CharPrefixIs` | crates/local-store/src/lib.rs:1567-1587 | the preview kept in the row is the beginning of the text, cut at a character, with at most that many characters |
| `StoreRuns.RunKeepsInvariant` | crates/local-store/src/lib.rs:739-1619 | every run of the operations keeps forest, layout and accounting |
| `StoreRuns.CountsNeverTooLow` | crates/local-store/src/lib.rs:1126-1254 | in every reachable state each count is at least the number of holders, and every held blob can be read |
| `StoreRuns.WellFiledRunLeaksNothing` | crates/local-store/src/lib.rs:1330-1393 | runs that file requests in their own project's collections never leak |
| `StoreRuns.CountsExact` | crates/local-store/src/lib.rs:1126-1254 | in such runs every count equals the number of holders |
| `StoreRuns.LeakingRunLeaks` | crates/local-store/src/lib.rs:739-756 | four calls from a fresh database that end with a blob counted above its holders, for every choice of names |
| `StoreRuns.RunRefines` | crates/local-store/src/lib.rs:1284-1460 | after any run the store stands for what a plain map of sanitized envelopes would hold |
| `StoreRuns.NoCredentialsAtRest` | crates/local-store/src/lib.rs:1330-1619 | after any run at all no request row and no snapshot holds a token, a runtime secret or a header named like a credential, and none is read back |
| `StoreRuns.GetReturnsLastSaved` | crates/local-store/src/lib.rs:1409-1460 | reading returns the last saved envelope, with the exact exception for marked inline bodies; a missing id reads as none |
| `StoreRuns.SnapshotReadsBack` | crates/local-store/src/lib.rs:1732-1797 | after any run an execution's snapshot reads back as recorded if and only if it is absent, large, unmarked, or names its own body; an unknown execution reads as none |
| `LocalStore.LocalStore.constructor` | crates/local-store/src/lib.rs:233-420 | a fresh database holds the default rows and is valid |
| `LocalStore.LocalStore.PutBlob` | crates/local-store/src/lib.rs:1126-1178 | the in-place insert or increment is the blob function on the tables |
| `LocalStore.LocalStore.ReleaseBlob` | crates/local-store/src/lib.rs:1236-1254 | decrement, then removal of row and file at zero, is a release of one reference |
| `LocalStore.LocalStore.ReleaseEach` | crates/local-store/src/lib.rs:951-968 | releasing a list one by one releases its multiset |
| `LocalStore.LocalStore.ExternalizeHttpBody` | crates/local-store/src/lib.rs:1284-1299 | moves a large body to a blob and leaves a marker; a failure changes nothing |
| `LocalStore.LocalStore.HydrateHttpBody` | crates/local-store/src/lib.rs:1301-1328 | puts the body back from the blob column, else from a marker |
| `LocalStore.LocalStore.SaveRequest` | crates/local-store/src/lib.rs:1330-1407 | new tables and reply are those of a save; validity is kept |
| `LocalStore.LocalStore.GetRequest` | crates/local-store/src/lib.rs:1409-1460 | returns the hydrated row and changes nothing |
| `LocalStore.LocalStore.DeleteRequest` | crates/local-store/src/lib.rs:970-991 | new tables are those of a deletion; validity is kept |
| `LocalStore.LocalStore.MoveRequest` | crates/local-store/src/lib.rs:993-1020 | only the request table changes, as a move says; validity is kept |
| `LocalStore.LocalStore.PrepareExecution` | crates/local-store/src/lib.rs:1548-1585 | snapshot body, then preview, go to blobs; if the second fails the first is undone |
| `LocalStore.LocalStore.RecordExecution` | crates/local-store/src/lib.rs:1548-1619 | new tables are those of a recording; validity afterwards holds exactly under the condition on the response blob |
| `LocalStore.LocalStore.PutForCaller` | crates/local-store/src/lib.rs:1126-1178 | the caller is handed one reference; validity is kept |
| `LocalStore.LocalStore.CreateProject` | crates/local-store/src/lib.rs:646-674 | project and default module are added, or the failure is reported; validity is kept |
| `LocalStore.LocalStore.CreateModule` | crates/local-store/src/lib.rs:676-692 | the module is added to an existing project, or nothing changes; validity is kept |
| `LocalStore.LocalStore.CreateCollectionInModule` | crates/local-store/src/lib.rs:767-831 | exactly one row more, in its parent's, the requested or the default module, or nothing; validity is kept |
| `LocalStore.LocalStore.CheckNewParent` | crates/local-store/src/lib.rs:878-911 | the ancestor walk ends and refuses exactly the moves that are missing, foreign or cyclic |
| `LocalStore.LocalStore.UpdateCollection` | crates/local-store/src/lib.rs:852-932 | rename, re-parent and rewrite of the subtree's module exactly as asked, or nothing; validity is kept |
| `LocalStore.LocalStore.Subtree` | crates/local-store/src/lib.rs:1264-1282 | the recursive query ends and lists every descendant exactly once |
| `LocalStore.LocalStore.BlobIdsForSubtree` | crates/local-store/src/lib.rs:1264-1282 | the joined query lists each removed request's blob exactly once |
| `LocalStore.LocalStore.BlobIdsOf` | crates/local-store/src/lib.rs:1256-1262 | lists the blob of each given request once |
| `LocalStore.LocalStore.DeleteCollection` | crates/local-store/src/lib.rs:951-968 | new tables are those of a subtree deletion; validity is kept |
| `LocalStore.LocalStore.DeleteProject` | crates/local-store/src/lib.rs:739-756 | new tables are those of a project deletion; validity is kept |
| `Streaming.DrainExtends` | crates/driver-grpc/src/lib.rs:630-698 | draining a longer buffer is draining the shorter one and going on with its leftover |
| `Streaming.FeedIgnoresChunking` | crates/driver-grpc/src/lib.rs:630-698 | a reader that drains after each chunk sees the same frames, error and leftover for every chunking |
| `Streaming.ReadOneIgnoresChunking` | crates/driver-redis/src/lib.rs:197-225 | as long as what must be buffered leaves room for one more chunk, reading one frame depends only on the bytes still to come, for streams of any length |
| `Streaming.ManyIsDrained` | crates/driver-redis/src/lib.rs:314-330 | reading a number of frames gives the first frames of the whole stream |
| `Decimal.ParseOfDigits` | crates/driver-redis/src/lib.rs:102-110 | the written length of a list or argument is the number the parser reads |
| `Decimal.SignsAndRange` | crates/driver-redis/src/lib.rs:134-144 | a length or number may carry a sign and must fit 64 bits |
| `Utf8.ValidExactly` | crates/driver-redis/src/lib.rs:150-158 | the bytes shown as text are exactly the encodings of sequences of Unicode scalar values |
| `Resp.FindCrlfIsFirst` | crates/driver-redis/src/lib.rs:112-121 | a line ends at its first CRLF |
| `Resp.ParseFrame` | crates/driver-redis/src/lib.rs:123-195 | a parsed frame takes at least 3 bytes and at most all of them |
| `Resp.ParseFrameStable` | crates/driver-redis/src/lib.rs:123-195 | a frame or error found on a buffer is unchanged by every extension, nested aggregates included |
| `Resp.ParserFitsStreaming` | crates/driver-redis/src/lib.rs:123-195 | the frame parser meets the demands of incremental reading |
| `Resp.EntriesAreFrames` | crates/driver-redis/src/lib.rs:170-190 | the entries of an aggregate are a run of frames |
| `RespWire.WireRoundTrip` | crates/driver-redis/src/lib.rs:123-195 | every reply a server can send, in each of its forms and nested in any way, is decoded to what it means and takes exactly its own bytes |
| `RespWire.UnknownPrefix` | crates/driver-redis/src/lib.rs:190-194 | what no reply begins with is refused |
| `RespWire.NumeralsAreFloats` | crates/driver-redis/src/lib.rs:163-168 | signed decimal numbers with or without a fraction are accepted as doubles |
| `RespWire.WordsAreNoFloats` | crates/driver-redis/src/lib.rs:163-168 | a text without digits is a double only if it spells infinity or not-a-number |
| `RespSession.EncodeCommandBytes` | crates/driver-redis/src/lib.rs:102-110 | the loop over the arguments writes the array of bulk strings |
| `RespSession.CommandRoundTrip` | crates/driver-redis/src/lib.rs:102-195 | any command of UTF-8 arguments, CRLF included, decodes to itself and takes exactly its bytes |
| `RespSession.PipelineRoundTrip` | crates/driver-redis/src/lib.rs:102-195 | a pipeline decodes to the same commands in order with nothing left over |
| `RespSession.ParseFrameBytes` | crates/driver-redis/src/lib.rs:123-195 | the parser as written is the parsing function |
| `RespSession.ParseAggregateLoop` | crates/driver-redis/src/lib.rs:170-190 | the loop over the entries of an aggregate is the recursive definition |
| `RespSession.Connection.ReadFrame` | crates/driver-redis/src/lib.rs:197-225 | parse, else fetch a chunk, is the reading function; what is left in buffer and socket is stated |
| `RespSession.Connection.ReadReplies` | crates/driver-redis/src/lib.rs:314-330 | for streams of any length in which no frame can overflow the 64 MiB buffer the replies are a function of the bytes alone |
| `RespSession.RepliesAreFrames` | crates/driver-redis/src/lib.rs:314-330 | successful replies are the frames after the setup ones, in order |
| `RespSession.RepliesAreDrained` | crates/driver-redis/src/lib.rs:314-330 | they are a slice of all the frames of the stream |
| `RespWire.SetupPasses` | crates/driver-redis/src/lib.rs:314-330 | if no setup reply is an error the caller gets what the remaining replies mean, in order |
| `RespWire.SetupFails` | crates/driver-redis/src/lib.rs:314-330 | otherwise the run fails with the text of the first setup reply that is an error |
| `Grpc.BigEndianRoundTrip` | crates/driver-grpc/src/lib.rs:90-122 | a 32-bit length survives its four bytes |
| `Grpc.ParserFitsStreaming` | crates/driver-grpc/src/lib.rs:97-122 | taking a frame never changes its mind when bytes arrive |
| `Grpc.EncodedFramePrefix` | crates/driver-grpc/src/lib.rs:90-122 | every proper prefix of a frame asks for more; the whole frame gives the message |
| `Grpc.FlagDecides` | crates/driver-grpc/src/lib.rs:97-122 | a whole frame gives its message if its flag is 0 and otherwise an error and no message |
| `Grpc.CompressedEnds` | crates/driver-grpc/src/lib.rs:97-122 | a compressed frame after good ones ends the answer with an error |
| `Grpc.OversizedRefused` | crates/driver-grpc/src/lib.rs:97-122 | an announced length over the limit is refused as soon as it is read |
| `Grpc.FramesRoundTrip` | crates/driver-grpc/src/lib.rs:90-122 | framed messages and an unfinished tail drain to those messages and that tail |
| `Grpc.CarriedDrains` | crates/driver-grpc/src/lib.rs:90-122 | whatever the chunks, framed messages and an unfinished frame are what is in them |
| `Grpc.AnyChunkingDelivers` | crates/driver-grpc/src/lib.rs:630-698 | every chunking makes the response loop return the messages sent, and bytes remain exactly when the stream stopped inside a frame |
| `Grpc.ValidateMessageSizes` | crates/driver-grpc/src/lib.rs:391-409 | accepts exactly the lists whose messages are small and whose encoding is at most 64 MiB |
| `Grpc.Response.TakeFrame` | crates/driver-grpc/src/lib.rs:97-122 | takes one whole frame off the buffer or leaves it untouched |
| `Grpc.Response.TakeMessages` | crates/driver-grpc/src/lib.rs:653-680 | takes all whole frames of the buffer and counts their bytes; one frame in single-message mode |
| `Grpc.Response.Receive` | crates/driver-grpc/src/lib.rs:630-698 | messages, error and leftover are those of all the chunks that fit 64 MiB, taken at once, in both modes; the byte count is the total length |
| `Mqtt.EncodeRemainingLength` | crates/driver-mqtt/src/lib.rs:243-257 | the loop writes the base-128 digits |
| `Mqtt.RemainingLengthRoundTrip` | crates/driver-mqtt/src/lib.rs:243-340 | every length up to 268435455 survives; every longer one is rejected |
| `Mqtt.RemainingLengthMinimal` | crates/driver-mqtt/src/lib.rs:243-257 | nothing shorter decodes to the same length |
| `Mqtt.PacketRoundTrip` | crates/driver-mqtt/src/lib.rs:259-344 | a packet reads back exactly when its body is within 64 MiB, and each longer one meets its own error |
| `Mqtt.PublishRoundTrip` | crates/driver-mqtt/src/lib.rs:289-373 | a PUBLISH within the limits reads back with topic, payload, id, QoS and retain |
| `MqttSession.ReadLength` | crates/driver-mqtt/src/lib.rs:309-335 | the reading loop is the decoding function |
| `MqttSession.Session.Read` | crates/driver-mqtt/src/lib.rs:309-344 | reads one packet off the broker's bytes; the trace accounts for every byte read so far |
| `MqttSession.Session.Connect` | crates/driver-mqtt/src/lib.rs:450-463 | succeeds if and only if the broker's next packet is an accepting CONNACK, and then CONNECT was sent |
| `MqttSession.Session.PublishOne` | crates/driver-mqtt/src/lib.rs:481-511 | succeeds if and only if the broker's next packets are the replies the QoS asks for with packet id 1, and then the handshake is in the trace |
| `MqttSession.Session.Deliver` | crates/driver-mqtt/src/lib.rs:524-557 | succeeds if and only if the next packet is no PUBLISH, or a well-formed one followed, for QoS 2, by its release; one iteration is one acknowledged delivery or one ignored packet |
| `MqttSession.Session.Subscribe` | crates/driver-mqtt/src/lib.rs:512-556 | succeeds if and only if the next packets are a granting SUBACK and what `receive_limit` iterations need |
| `MqttSession.Session.Execute` | crates/driver-mqtt/src/lib.rs:450-557 | for every byte stream of a broker: the run succeeds if and only if the packets at its front are those the request waits for, the trace holds exactly these packets in order, and it has the form of a publish or subscribe run; a failed publish never reports success |
| `MqttSession.OwedExactly` | crates/driver-mqtt/src/lib.rs:530-553 | the acknowledgements sent are the owed codes with the two bytes after the topic |
| `MqttSession.DeliverySettles` | crates/driver-mqtt/src/lib.rs:524-557 | what was written reads, packet by packet, as PUBACK (0x40), PUBREC (0x50) and PUBCOMP (0x70) with the identifier bytes of the PUBLISH packets read, exactly as owed and complete before each delivery |
| `MqttSession.SubscribeRunSettles` | crates/driver-mqtt/src/lib.rs:512-556 | the same for whole successful subscriptions, with at most `receive_limit` deliveries |
| `MqttSession.DeliveredAsPublished` | crates/driver-mqtt/src/lib.rs:524-556 | a published message is handed over with the same topic, payload, QoS and retain flag |
| `MqttSession.RefusedExactly` | crates/driver-mqtt/src/lib.rs:346-373 | a PUBLISH is refused exactly when it is cut short or its topic is not UTF-8 |
| `MqttSession.ConnectCarries` | crates/driver-mqtt/src/lib.rs:266-287 | the CONNECT packet reads back as protocol, level, flags bit by bit, keep-alive, client id, user name and password |
| `MqttSession.SubscribeCarries` | crates/driver-mqtt/src/lib.rs:302-307 | the SUBSCRIBE packet reads back as packet id 1, topic and QoS |
| `MqttSession.FixedPackets` | crates/driver-mqtt/src/lib.rs:494-557 | the release of a publish and the farewell as a broker reads them |
| `Structure.ValidateStructure` | packages/import-export/src/index.ts:79-91 | the explicit stack rejects exactly trees of more than 100000 nodes or deeper than 128 |
| `OpenApi.Separate` | packages/import-export/src/index.ts:219-221 | a reference is cut at its first `#`, without loss |
| `OpenApiLaws.ExpandMonotone` | packages/import-export/src/index.ts:208-235 | more nesting allowed never changes a substitution that exists |
| `OpenApiLaws.MeaningUnique` | packages/import-export/src/index.ts:208-235 | a document has at most one substitution |
| `OpenApiLaws.ExpandRefFree` | packages/import-export/src/index.ts:208-235 | substituting in a reference-free value is the identity |
| `OpenApiLaws.ExpandLeavesNoRef` | packages/import-export/src/index.ts:208-235 | on documents whose every `$ref` is a string the result has no `$ref` |
| `OpenApiLaws.MergeExpands` | packages/import-export/src/index.ts:227-230 | visiting a dereferenced target merged with raw siblings substitutes in the siblings only |
| `OpenApiLaws.WalkIsPointer` | packages/import-export/src/index.ts:140-150 | targets are those of section 4 of RFC 6901, except that arrays cannot be entered |
| `OpenApiLaws.FragmentPoints` | packages/import-export/src/index.ts:140-150 | nothing or `#` is the whole document, `#/` and segments a JSON Pointer through objects, and nothing else points anywhere |
| `OpenApiLaws.LoneReferenceMeans` | packages/import-export/src/index.ts:217-227 | an object that is just a reference means what stands at its fragment in the document named relative to the one that holds it, read in that document; and only that |
| `OpenApiLaws.SiblingsOverride` | packages/import-export/src/index.ts:226-230 | with members beside the reference, each of these has its own meaning in the result and every other member is the target's |
| `OpenApiLaws.MergeLookup` | packages/import-export/src/index.ts:229-230 | after merging, a name is looked up on the overriding side first |
| `Dereference.IdentityInjective` | packages/import-export/src/index.ts:219-224 | different targets have different identities when URIs hold no `#` |
| `Dereference.SelfNeedNever` | packages/import-export/src/index.ts:223-226 | a target that needs itself has no finite substitution |
| `Dereference.RejectedTarget` | packages/import-export/src/index.ts:223-226 | a failure inside a reference is a failure of what holds it, and closes the cycle at its own reference |
| `Dereference.ReferenceMeans` | packages/import-export/src/index.ts:217-230 | visiting the target and then the merged siblings is the substitution of the reference |
| `DerefCost.ReferenceCost` | packages/import-export/src/index.ts:217-230 | a reference costs itself, its target and, with members beside it, the combination visited again |
| `Dereference.Dereferencer.constructor` | packages/import-export/src/index.ts:187-195 | the cache starts with the given documents |
| `Dereference.Dereferencer.Load` | packages/import-export/src/index.ts:197-205 | returns what the URI stands for, or that a limit on documents, bytes, size or structure is broken, or that there is nothing; each loaded document counts once |
| `Dereference.Dereferencer.Visit` | packages/import-export/src/index.ts:207-235 | ends on every document graph; if the documents in the cache are clean the result is the substitution without references, or the failure has a reason; the counters grow by exactly the cost of the value, and giving up over a limit means that this cost does not fit or too much had to be loaded |
| `Dereference.Dereferencer.VisitReference` | packages/import-export/src/index.ts:217-230 | the same for a reference with its siblings, resolved against the document that holds it |
| `Dereference.DereferenceDocument` | packages/import-export/src/index.ts:187-238 | if the documents used are clean, success is the substitution; a limit is reported only if the cost or the loaded documents break it; any other failure means there is no substitution, or one that is no object |
| `Postman.ImportPostman` | packages/import-export/src/index.ts:296-319 | yields the requests in recursive pre-order with the folders above them; throws exactly on malformed items and exceeded limits |
| `Postman.PopStep` | packages/import-export/src/index.ts:302-316 | popping an item and pushing its children visits the item, then its children, then the rest |
| `Postman.RequestItems` | packages/import-export/src/index.ts:304-306 | an item is a request exactly when it has a `request` that is not null, false, zero or empty |
| `Postman.FolderItems` | packages/import-export/src/index.ts:312-315 | a folder's items and name are those of its `item` and `name` members |
| `Postman.RefusedItems` | packages/import-export/src/index.ts:304-309 | exactly the items the importer throws on |
| `Postman.PathsMatchDepth` | packages/import-export/src/index.ts:312-315 | every item is filed under one folder per level above it |
| `JsonPath.ToJsonPointer` | crates/execution-engine/src/assertions.rs:115-152 | the whole compilation is the compile function |
| `JsonPath.CompileLoop` | crates/execution-engine/src/assertions.rs:124-151 | the loop ends on every text and is the recursive definition |
| `JsonPath.EscapeRoundTrip` | crates/execution-engine/src/assertions.rs:140-145 | an escaped name holds no separator and unescapes to itself |
| `JsonPath.IndexRoundTrip` | crates/execution-engine/src/assertions.rs:130-139 | a written index is read as that index |
| `JsonPath.ArrayIndexExactly` | crates/execution-engine/src/assertions.rs:130-139 | a token is an array index exactly when it is how that index is written |
| `JsonPath.CompileSteps` | crates/execution-engine/src/assertions.rs:115-152 | a path of names and indices compiles to one token per step |
| `JsonPath.PathReachesLookup` | crates/execution-engine/src/assertions.rs:108-152 | compiling a path and evaluating the pointer reaches what following it step by step reaches |
| `JsonPath.PointersPassThrough` | crates/execution-engine/src/assertions.rs:115-119 | a path that is a pointer already is left as it is |
| `JsonPath.UnclosedBracket` | crates/execution-engine/src/assertions.rs:130-134 | a bracket that is never closed is an error, wherever it stands |
| `Redact.OccurrenceKept` | crates/secret-store/src/lib.rs:149-158 | a sturdy secret in masked text was there before, and is not the one masked |
| `Redact.RedactHides` | crates/secret-store/src/lib.rs:149-158 | for every text and order, no sturdy cached secret of at least 4 bytes occurs in the result, overlaps included |
| `Redact.HidesExactlySturdy` | crates/secret-store/src/lib.rs:149-158 | masking hides a secret in every text if and only if it has no star at an end and no three stars inside; for UTF-8 secrets UTF-8 texts decide it |
| `Redact.RedactNothing` | crates/secret-store/src/lib.rs:149-158 | a text in which no cached secret of at least 4 bytes occurs is left as it is |
| `Redact.SecretStore.PutRef` | crates/secret-store/src/lib.rs:83-100 | keychain and cache get the value; the cache stays part of the keychain |
| `Redact.SecretStore.Resolve` | crates/secret-store/src/lib.rs:102-123 | whatever is handed out is cached from then on |
| `Redact.SecretStore.Delete` | crates/secret-store/src/lib.rs:125-138 | the value leaves keychain and cache |
| `Redact.SecretStore.Redact` | crates/secret-store/src/lib.rs:149-158 | the loop over the cache in any order hides every sturdy cached secret |
| `Scheduler.Gateway.CreateJob` | apps/protocol-gateway/src/main.rs:348-376 | accepts exactly intervals of at least 10 that can be scheduled; new state as stated |
| `Scheduler.Gateway.DeleteJob` | apps/protocol-gateway/src/main.rs:377-386 | removes the job and writes the file, or reports that there is none |
| `Scheduler.Gateway.TickOnce` | apps/protocol-gateway/src/main.rs:388-411 | dispatches each due job exactly once and reschedules it from now; a panic dispatches nothing |
| `Scheduler.Gateway.Reschedule` | apps/protocol-gateway/src/main.rs:392-403 | the loop over due jobs, in any order |
| `Scheduler.Gateway.CompleteJob` | apps/protocol-gateway/src/main.rs:411-424 | notes the execution on a job that still exists and creates none |
| `Scheduler.Gateway.LoadJobs` | apps/protocol-gateway/src/main.rs:427-435 | after a restart the jobs are those of the file |
| `SchedulerRuns.StepKeeps` | apps/protocol-gateway/src/main.rs:348-442 | every step keeps the pacing of memory, and of the file unless a write failed; a restart does if the file is on pace |
| `SchedulerRuns.TickDispatchesExactly` | apps/protocol-gateway/src/main.rs:392-411 | a tick dispatches a job if and only if it is enabled and its next run has come |
| `SchedulerRuns.CreatedRunsAfterInterval` | apps/protocol-gateway/src/main.rs:356-366 | a new job first runs exactly its interval after its creation |
| `SchedulerRuns.DispatchedRunsAfterInterval` | apps/protocol-gateway/src/main.rs:397-403 | a dispatched job next runs exactly its interval after the tick |
| `SchedulerRuns.FirstTickDispatches` | apps/protocol-gateway/src/main.rs:388-411 | an enabled job is dispatched by the first tick at or after its next run and not before |
| `SchedulerRuns.DisabledNeverDispatched` | apps/protocol-gateway/src/main.rs:356-411 | a job created disabled is never dispatched in any run |
| `SchedulerRuns.CompletionNoted` | apps/protocol-gateway/src/main.rs:411-424 | a completion is noted on its own job and changes nothing else |
| `SchedulerRuns.DispatchesApart` | apps/protocol-gateway/src/main.rs:388-442 | in every run two dispatches of a job are at least its interval apart, across restarts |
| `SchedulerRuns.WindowHoldsFew` | apps/protocol-gateway/src/main.rs:388-442 | a window of length W holds at most W / interval + 1 dispatches of a job |
| `SchedulerRuns.DeletedNeverRevived` | apps/protocol-gateway/src/main.rs:377-424 | a deleted job never comes back and is never dispatched again, whatever completes later |
| `SchedulerRuns.WrittenRunsAllowed` | apps/protocol-gateway/src/main.rs:436-442 | when writes succeed the file is always on pace, so crashes may come at any time |
| `SchedulerRuns.RestartHarmlessExactly` | apps/protocol-gateway/src/main.rs:427-442 | after a crash every continuation keeps all intervals and brings back no deleted job if and only if the file holds no deleted job and none that could be dispatched too early |
| `SchedulerRuns.LostTickRepeats` | apps/protocol-gateway/src/main.rs:404-409 | after a tick whose write failed and a crash, the next tick dispatches the same job again, and the interval is kept if and only if that tick comes a full interval later |
| `SchedulerRuns.LostDeleteRevives` | apps/protocol-gateway/src/main.rs:377-386 | a deletion whose write failed is undone by a crash |
| `SchedulerRuns.WrappedIntervalBursts` | apps/protocol-gateway/src/main.rs:348-402 | every accepted interval that turns negative is dispatched twice in one instant |
| `Capture.CaptureProxy.StartCommit` | crates/capture-proxy/src/lib.rs:86-93 | sets running, address and token together under a new generation |
| `Capture.CaptureProxy.Stop` | crates/capture-proxy/src/lib.rs:108-120 | clears all three under a new generation and hands the token back |
| `Capture.CaptureProxy.AcceptLoopEnded` | crates/capture-proxy/src/lib.rs:99-104 | clears all three only for the current generation |
| `Capture.CaptureProxy.Record` | crates/capture-proxy/src/lib.rs:131-137 | keeps the newest 500 exchanges in order |
| `Capture.NewestAre` | crates/capture-proxy/src/lib.rs:131-137 | what is kept is the end of the history, at most 500 long |
| `Capture.EndClearsExactly` | crates/capture-proxy/src/lib.rs:99-104 | the end of an accept loop clears the session exactly when the generations agree modulo 2^64 |
| `Capture.OlderEndKeepsSession` | crates/capture-proxy/src/lib.rs:99-104 | an older accept loop never clears a newer session |
| `Capture.StepKeeps` | crates/capture-proxy/src/lib.rs:75-120 | every step of every interleaving keeps the session invariant |
| `Capture.SessionOwnsListener` | crates/capture-proxy/src/lib.rs:75-120 | in every reachable state the fields agree, and a running session's token and address belong to a live accept loop of its own generation |
| `Capture.OneUntoldExactly` | crates/capture-proxy/src/lib.rs:75-120 | in every state of a run at most one accept loop was not told to stop, if and only if no start commits while a session is running |
| `Capture.RacedListenerUnreachable` | crates/capture-proxy/src/lib.rs:75-120 | after a start that commits while a session runs, that session's accept loop is never told to stop, whatever stops follow |
| `Capture.RaceHappens` | crates/capture-proxy/src/lib.rs:75-93 | two checks may pass before either start commits |
| `CloneProject.FindReady` | apps/web/src/App.tsx:103-104 | finds the first collection whose parent is copied, or none |
| `CloneProject.StuckIsNotGrounded` | apps/web/src/App.tsx:102-105 | when nothing is ready no remaining collection reaches a root |
| `CloneProject.CloneCollections` | apps/web/src/App.tsx:100-109 | ends; gives up exactly when some chain of parents misses a root inside the project; else copies every collection under its parent's copy |
| `CloneProject.ChildrenCorrespond` | apps/web/src/App.tsx:106-108 | parents and children correspond both ways between source and copies |
| `CloneProject.CloneRequests` | apps/web/src/App.tsx:110-115 | saves the project's requests in order under the copies of their collections |
| `CloneProject.SavedUnderCopies` | apps/web/src/App.tsx:110-115 | a request is saved if and only if it belongs to the project, its collection was copied and it can be loaded |
| `CloneProject.Clone` | apps/web/src/App.tsx:95-117 | unknown projects and broken hierarchies fail exactly as stated; otherwise the copy is isomorphic and its requests are filed |

## Left out

- Workspaces, environments, scripts, API definitions, tags, sort order and timestamps of the store: they do not touch the invariants.
- Databases from before the current schema (added columns without foreign keys) and file-system errors.
- The scrubbing of credential-like keys in request metadata.
- StoreRuns.RunRefines: assumes that identifiers drawn for new blobs are unused, as random UUIDs are.
- StoreRuns.RunKeepsInvariant: speaks of runs in which callers pass on only response blobs they hold; `StoreLaws.RecordKeepsExactly` says what any other recording does.
- SHA-256 is an injective constructor.
- Replies and topics keep their raw bytes: lossy UTF-8 decoding, JSON rendering of RESP values and number parsing beyond recognising the text are not modelled.
- Allocation limits, such as the buffer a RESP aggregate's announced count asks for up front.
- Connecting, TLS, timeouts, cancellation, write errors and the engine's terminal events.
- Decompression, metadata, reflection and trailers of gRPC.
- MQTT keep-alive, wills, retained state on the broker and the marking of the last chunk.
- URL resolution, percent decoding and document loading are parameters of the OpenAPI model; JSON and YAML parsing is part of loading.
- Dereference.DereferenceDocument: states nothing about documents in which some `$ref` is not a string (the source keeps it as an ordinary member) and, for failures, about a main URI that contains `#` or a resolver that brings one into URIs that had none.
- JavaScript's order of integer-like member names, inherited properties and the `__proto__` member.
- Deriving requests from a dereferenced OpenAPI document, and the reading of name, method, URL, headers and body of a Postman item.
- Retained executions of the gateway, authentication and routing; concurrency permits delay dispatched executions, which the dispatch times do not show.
- SchedulerRuns.DispatchesApart: times are those at which a tick hands jobs out, read from a clock that may run backwards; restarts find a file that is on pace, which `SchedulerRuns.RestartHarmlessExactly` shows to be necessary.
- Generations of the capture proxy are compared modulo 2^64; an accept loop is taken not to outlast 2^64 starts and stops.
- Forwarding, tunnelling and header masking in the capture proxy.
- CloneProject.Clone: takes creations and saves to succeed and collection ids to be unique, as the store's primary key makes them; a clone that gives up leaves the copies made so far.
- Keychain failures and lock poisoning of the secret store.
- React components, HTTP clients and the AMQP, Kafka, SQL, GraphQL, WebSocket, SSE and HTTP drivers.
