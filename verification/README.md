# Verified model of go-reverse-rpc

A Dafny model of the request/response protocol of go-reverse-rpc, from a client's `Call` to the reply that comes back,
with proofs over every run. `dafny verify dfyconfig.toml` checks all of it.

| file | what it models |
|---|---|
| `Rrpc.dfy`, `CallProtocol.dfy` | responses; `Server.Call` as a concurrent state machine: any number of calls, each with a caller and a pool job, the compare-and-swap, the store and the send as separate steps, workers, the deferred function, the event pool |
| `CallInvariants.dfy`, `CallTheorems.dfy`, `CallOutcomes.dfy`, `CallLookup.dfy`, `CallProgress.dfy` | the invariants; what holds in every reachable state; exactness of the sequential specification; what the lookup finds; no state is a dead end |
| `RequestContext.dfy`, `Server.dfy` | context.go and server.go as objects whose methods rewrite their fields, and what the concurrent server has to do with them |
| `Limiter.dfy`, `LimitedServer.dfy` | admission through the token bucket; the concurrent server with that bucket |
| `Paths.dfy`, `Topics.dfy` | path joining and cleaning, the two reply-topic rewritings, routing |
| `Compression.dfy`, `Buffers.dfy`, `Compressor.dfy` | the compressor as a function; writes into a buffer's store; the compressor on the heap with its pools |
| `SharedPool.dfy` | the buffers of one compressor under concurrent use: draw, write, put back, copy |
| `Wire.dfy`, `Codec.dfy` | the protobuf messages and the codecs, as functions and in place |
| `Pending.dfy`, `RpcClient.dfy` | the pending table; the pooled client codec, and how net/rpc drives it |
| `Conn.dfy`, `LateReader.dfy` | one connection: callback, readers and Close, step by step; a new Call and an earlier Call's reader on one codec, step by step |
| `MqttPb.dfy`, `Gateway.dfy`, `Interference.dfy` | replies of the protobuf transport, end to end; the whole server over all received messages, with its shared codec; where its calls cannot interfere, and runs in which they do |
| `MqttJson.dfy` | the JSON transport |
| `Adapter.dfy` | the registries of the MQTT adapter, and what client Calls leave in them |

Runs are sequences of actions; a theorem about reachable states is about every interleaving. gzip, zlib, brotli,
protobuf and JSON are functions given as parameters. Their only laws are hypotheses: decoding undoes encoding
(`Lawful`, `ProtoLawful`, `MessagesLawful`, `JsonLawful`), for JSON on the texts that the transport itself produces; a
compressed stream is not empty; and no bytes stand for a message with no field set. For plain JSON values a
further law, `ValuesLawful`, says that an empty object of their type takes them over. The choices of `sync.Pool`, and the
sizes of the pieces in which a compressor's writer emits its stream, are parameters. net/rpc numbers the one
request of each client 0, and ends a call when its stream ends. The worker pool runs a job once or never, and may report
an error at any time before the call leaves it.

What the proofs show about the code, besides what it promises:

- A call whose pool wait fails between its job's compare-and-swap and store dereferences nil in the deferred function
  (server.go:134); that is the only way (`ExactWindow`, `WindowIsReachable`).
- A response that arrives before the client's first read leaves its callback at the channel for good, and `Close` makes
  it panic (`EarlyMessageMakesCallbackPanic`, `CallbackReturnsIffReaderWaits`).
- An error with an empty text is no error to the protobuf client, and one with status 200 is none to the JSON client
  (`EmptyErrorIsLost`, `JsonErrorNeedsStatus`). A JSON result that does not encode is lost in silence:
  the client decodes null into its reply object (`UnencodableResultIsLost`).
- A protobuf result that does not marshal makes the handler panic inside its reply, and nothing is ever published for the
  call (`UnmarshallableResultPanics`).
- A result without content leaves a reply object as it was (`StaleReplySurvives`).
- All calls of a protobuf server share one codec, whose compressor hands out a buffer again while an earlier call still
  has to copy from it. A request can be answered with another request's body, under its own id and on its own topic
  (`CallsMaySwapBodies`); a response is its own exactly when no such write changed its bytes
  (`PublishedIsOwnExactlyWhenIntact`). One worker, a plain encoding or an error response are safe (`SafeConfigurations`).
- The reader of a finished Call may still use its pooled codec. It can take the next Call's response, which then ends with
  an unexpected end of file (`NewCallUnderLateReader`), or clear the response object before the Call is
  done with it, and the Call then succeeds without its result, or without its error (`LateResetLosesTheResponse`).
- A finished Call leaves its OnConnect callback behind: after n Calls a reconnect subscribes to n dead response topics
  (`FinishedCallsComeBack`).
- Clock readings that reach the limiter out of order admit more calls than the bucket should (`SetbackAdmitsMore`).
- Replies go astray exactly when "request" occurs in the cleaned prefix and device (`ReplyTopicTheorem`).
- Metadata of earlier calls stays in a pooled codec (`MetadataAccumulates`).
- `OnConnectOnce` can remove callback 0 instead of its own (`OnceMayRemoveAnother`).

## Model

| member | source | states |
|---|---|---|
| CallTheorems.RepliesAtMostOnce | context.go:131-139 | in every reachable state of any calls, each request context has handed at most one response to its child context |
| CallTheorems.RepliesExactlyOnce | server.go:139-178 | once a call and its job are over, exactly one response was handed over, timeouts, panics, silent and talkative handlers included |
| CallTheorems.SentIsSequential | server.go:139-178 | the response sent in any interleaving is that of one sequential execution: the refusal, the unregistered method, else the pool error if it claimed first, else the first reply, the panic or ErrNoReply |
| CallTheorems.NoReplyOnlyWithoutReplies | server.go:167-172 | ErrNoReply wins only for a handler that returned without asking for any reply, and then nothing else is sent |
| CallLookups.LookupFindsTheHandlers | server.go:152-156 | at the lookup a call is submitted exactly if its method is registered in that state, and a step makes it unregistered only if it is not |
| CallLookups.SubmittedIsRegistered | server.go:152-156 | in every reachable state a submitted call's method has a handler |
| CallLookups.UnregisteredExactlyWithoutRegistration | server.go:91-101 | where registration ends before the first call, a call past the lookup is unregistered exactly if its name was never registered in the run |
| CallLookups.AnsweredByRegistration | server.go:139-178 | then an admitted call gets 500 and "Unhandled method" with its name if that was not registered; else, without a pool error, the handler's first reply, its panic, or the empty-reply error |
| CallTheorems.SentStatusAndText | server.go:139-178 | in every reachable state the response sent has the status and text of its cause: 429 or 408 for a refusal, 500 naming the unregistered method, 500 with the pool error, the handler's own first reply, 500 with the panic's or ErrNoReply's text |
| CallOutcomes.EverySequentialOutcomeArises | server.go:106-179 | the sequential specification is exact: for every playable script and either winner there is a run that sends its outcome |
| CallOutcomes.FinishedCallPlayedItsScript | server.go:106-179 | the other direction: every finished call has played such a script and sent its outcome |
| CallTheorems.ExactWindow | server.go:114-137 | about to run GetResponse, a call reads nil if and only if its job has won the compare-and-swap and not stored, which needs a pool error; else it reads the winner's response |
| CallTheorems.CrashesExactlyInTheWindow | server.go:131-134 | the dereference fails if and only if that read saw nil, and only after a pool error with the job as winner |
| CallTheorems.WindowIsReachable | context.go:131-139 | the window is real: for any reply and pool error some run crashes before the reply is sent |
| CallTheorems.JobMayWin | context.go:131-139 | for any reply and pool error some run sends the reply |
| CallTheorems.CallerMayWin | server.go:176-178 | for the same reply and pool error some run sends the pool error |
| CallTheorems.CallerCanProceed | server.go:106-179 | until Call has returned its goroutine has a possible step in every reachable state; while it waits for the pool this is the pool's error |
| CallProgress.ProgressWithoutPoolError | server.go:158-178 | without any pool error: an unfinished call has a step of its own or of its job, or it waits for a worker whose job has one |
| CallProgress.EveryCallCanFinish | server.go:106-179 | from every reachable state some run without a pool error ends all calls and all jobs, timed-out ones included |
| CallTheorems.AtMostWorkerNumJobs | server.go:79 | counted over all calls, at most workerNum jobs run at once, timed-out ones included; that the pool starts a job on a free worker only is assumed of the library |
| CallTheorems.EventsAreIsolated | server.go:117-136 | no event is held by two calls, nor by a call and the pool |
| CallTheorems.EventsAreConserved | server.go:117-136 | unless the pool evicts or a call crashes, every event ever made is in the pool or held by a call |
| CallTheorems.CallbacksSeeTheirOwnCall | server.go:199-204 | a call that returned ran every callback once in registration order, each seeing its own duration and the winner's response; a crashed one ran none |
| CallTheorems.CallbacksFireInOrder | server.go:195-204 | a call that returned has run the callbacks that the run registered, each once and in that order |
| CallInvariants.NextKeepsInv | server.go:106-179 | every action of the server keeps the invariant of calls, workers, events and callbacks |
| RequestContexts.ReplyIsItsSteps | context.go:131-139 | the three steps that the protocol interleaves, taken without interruption, are Reply |
| RequestContexts.FirstReplyWins | context.go:131-139 | of any sequence of replies only the first is stored and sent |
| RequestContexts.RequestContext.Reply | context.go:131-139 | the fields after Reply and its result are those of the atomic reply |
| RequestContexts.RequestContext.ReplyOK | context.go:143-148 | replies with status 200 and the data |
| RequestContexts.RequestContext.ReplyError | context.go:152-157 | replies with the status and the error text |
| RequestContexts.RequestContext.SetResponse | context.go:159-163 | is the store step of the protocol |
| Servers.Server.Register | server.go:91-101 | looked up afterwards, the method has this handler, replaced or new, and every other method what it had |
| Servers.Server.EmitAfterResponse | server.go:199-204 | every callback sees the event once in order, then the event is in the pool |
| Servers.Server.RunJob | server.go:158-174 | the handler's replies, then the panic's or the fallback's, act on the context in that order |
| Servers.Server.AfterCall | server.go:114-137 | whatever event the pool hands out, the callbacks see this call's duration and response; with no response it crashes before any callback, and the event does not go back |
| Servers.Server.Call | server.go:106-179 | run by one goroutine: the refusal's 429 or 408, 500 and "Unhandled method" for a name that is not in the map, the pool's error for a job that never ran, else the handler's first reply, its panic or the empty-reply error; sent exactly once, and every callback fires with it |
| Servers.Server.OnAfterResponse | server.go:195-197 | the callback comes after the earlier ones |
| Servers.Serve | server.go:91-204 | any registrations and then any calls by one goroutine: each is answered by the last entry of the list with its name, or as unhandled if there is none, whatever came before, and the callbacks fire for each in turn |
| Servers.ConcurrentCallRefinesCall | server.go:106-179 | a finished concurrent call sends what the one-goroutine Call sends with the handler and pool outcome of its own history |
| Limiters.AdmissionBoundAnyOrder | server.go:139-143 | over any run, clock readings in any order, and any window of length W: the admitted calls are at most the count plus the whole intervals in W and in what the readings set the clock back |
| Limiters.AdmissionBound | server.go:64-65 | with readings in order: at most the count plus the whole intervals in W |
| Limiters.SetbackAdmitsMore | server.go:139-143 | out of order the plain bound fails: five calls within one interval where it allows four |
| LimitedServers.ServerAdmissionBound | server.go:139-143 | the bound for the calls that any run of the concurrent server in reject mode admits in a window |
| LimitedServers.CallsPastTheLimiter | server.go:139-143 | how many calls of the reached state are past the limiter, counted in that state |
| LimitedServers.RunIsServers | server.go:139-143 | a run with the bucket is a run of the server, so every theorem about reachable states holds of it |
| LimitedServers.ServerRefusesExactlyAtTheBound | server.go:139-143 | with readings in order, a run of the server refuses a call exactly if some window that ends with it already holds as many admissions as the bound allows |
| Limiters.RefusedExactlyAtTheBound | server.go:139-143 | the same of any sequence of readings: the bound is the only reason for a refusal |
| Limiters.PauseAdmits | server.go:64-65 | a call that comes an interval after the last admission, or finds none before it, is admitted |
| Limiters.SpacedCallsPass | server.go:64-65 | calls an interval apart are all admitted |
| Limiters.BurstAdmitsTheCount | server.go:139-143 | the bound is met: of calls at one moment exactly the count is admitted |
| Limiters.NoCountNoAdmission | server_option.go:39-44 | a count that is not positive admits nothing |
| Topics.ReplyTopicTheorem | mqttpb/server.go:121-123 | the reply topic is the client's response topic if and only if "request" does not occur in the cleaned prefix and device |
| Topics.JsonReplyTopicTheorem | mqttjson/server.go:73-75 | likewise for replace-all, with the id free of the word as well |
| Topics.BothRewritingsAgree | mqttjson/server.go:73-75 | on topics answered correctly, replace-first and replace-all agree if and only if the id is free of the word |
| Topics.UuidTopics | mqttjson/client.go:65-67 | for the random ids of both clients the two conditions are the same |
| Topics.RoutingTheorem | mqttpb/server.go:39 | a server's filter takes a client's request topic if and only if both have the same cleaned prefix and device |
| Topics.TopicShape | mqttpb/client.go:92-94 | a topic is the cleaned prefix and device, then the kind, then the id, for all strings |
| Topics.PlainTopics | mqttpb/client.go:92-94 | for a plain prefix and device, the request topic, the response topic and the server's filter in full |
| Paths.CleanIsNormalAndIdempotent | mqttpb/client.go:93-94 | cleaning leaves no empty, "." or inner ".." element, and cleaning again changes nothing |
| Paths.ParentTakesBack | mqttpb/client.go:93-94 | appending a plain element and ".." to any non-empty path cleans to the path itself |
| Paths.IdleElementsGo | mqttpb/client.go:93-94 | an empty element or "." makes no difference anywhere in a path |
| Paths.ElementAndParentGo | mqttpb/client.go:93-94 | nor does a plain element followed by ".." |
| Paths.ParentOfRootGoes | mqttpb/client.go:93-94 | nor does ".." at the root |
| Paths.NormalPathStays | mqttpb/client.go:93-94 | a path without any of these is left as it is, and no path at all is "." |
| Compression.CompressionRoundTrip | compressor/compressor.go:75-116 | Decompress undoes Compress, nil included; Compress fails exactly on data with an unknown encoding |
| Compression.EncodingsMean | compressor/compressor.go:80-91 | encodings 0, 1 and 2 give the gzip, zlib and brotli stream, 3 the data itself, any other the unknown-encoding error; nil gives nil |
| Compression.DecodersMean | compressor/compressor.go:104-133 | for 0, 1 and 2 there is no error exactly if that format decodes the data whole, and otherwise that decoder's own text with the bytes read before; 3 is the data, any other the unknown-encoding error |
| Compressors.RunHistory | compressor/compressor.go:75-116 | over any history of calls on one manager, failing ones included, and any pooled objects, each result depends on its encoding and data alone |
| Compressors.CompressorManager.Compress | compressor/compressor.go:75-92 | the bytes at return are the pure result; the slice is the input or the drawn buffer's store, and every other pooled buffer keeps its bytes |
| Compressors.CompressorManager.Decompress | compressor/compressor.go:99-116 | the bytes and error are the pure result, and for a compressed format the storage is new |
| Compressors.CompressorManager.FormatCompress | compressor/compressor.go:137-156 | writer and buffer go back on every path; the drawn buffer's old store holds the leading pieces of the stream that fit it, and a store that is too small is replaced |
| Compressors.CompressorManager.FormatDecompress | compressor/compressor.go:121-133 | a header error gives nothing, a body error the partial bytes, else the whole data, in new storage |
| Buffers.ChunksAreAny | compressor/compressor.go:144-155 | the piece sizes quantified over give every way in which a writer can emit its stream |
| Compressors.ReuseOverwrites | compressor/compressor.go:141-155 | from any pool state, a returned slice whose buffer is drawn again holds the leading pieces of the later stream that fit its array over its own bytes, and is intact exactly when one of the two is a prefix of the other |
| SharedPools.StepKeepsPoolInv | compressor/compressor.go:137-156 | under any interleaving of users, no two buffers share an array, a writer's stream is whole, and a slice holds what others' writes have made of its own bytes |
| SharedPools.CopyIsOwnExactlyWhenIntact | compressor/compressor.go:141-155 | what a user copies is its own bytes under the writes that others made to that array since the put-back, and its own if there were none |
| SharedPools.EmitAllFills | compressor/compressor.go:144-155 | a writer that runs alone does to its array what the compressor's does on the heap |
| SharedPools.PackedAlone | compressor/compressor.go:137-156 | a compression with nobody in between leaves its whole stream in its buffer, and fills the array of the buffer it drew |
| Wire.CodecRoundTrip | mqttpb/codec.go:44-135 | for every message and every integer encoding, unmarshal after marshal gives the message back up to nil and empty bytes |
| Wire.PackingSucceeds | mqttpb/codec.go:28-40 | compression never fails in a codec, whatever the encoding |
| Wire.PackedWithNamedFormat | mqttpb/codec.go:28-40 | a value is compressed with gzip, zlib or brotli for encodings 1, 2 and 3, and left alone for 0 and every other number |
| Wire.UnmarshalFailsExactly | mqttpb/codec.go:62-78 | unmarshal fails exactly if the parser does or the named decoder does not decode the value whole, with that text; else it gives the parsed message with the decoded value |
| Codecs.Codec.Marshal | mqttpb/codec.go:101-115 | rewrites the body in place to its compressed form and returns the marshalled bytes, whatever the pools hand out |
| Codecs.Codec.Unmarshal | mqttpb/codec.go:62-78 | overwrites the message with what was parsed and decompressed, or as far as it got before an error |
| Pendings.TableIsUnanswered | mqttpb/rpc_client.go:82-84 | under any interleaving the table maps exactly the registered and unanswered numbers to their methods |
| Pendings.HeaderReportsItsRequest | mqttpb/rpc_client.go:156-162 | the first header of a registered number reports its method, any other reports the empty string |
| Pendings.AnsweredTableIsEmpty | mqttjson/rpc_client.go:98-101 | once every request has seen a header the table is empty |
| RpcClients.PendingHoldsOnlyZero | mqttpb/client.go:91-111 | after any calls, answered or not, a pooled codec holds no number but 0 |
| RpcClients.PooledCodecActsFresh | mqttpb/client.go:91-111 | after any calls, the request that arrives (metadata apart), the method reported, the error and the reply are those of a new codec, failures to send included; only metadata can make one of the two fail alone |
| RpcClients.MetadataAccumulates | mqttpb/rpc_client.go:104-115 | the metadata sent is that of all earlier calls and this one |
| RpcClients.SentArrives | mqttpb/codec.go:62-78 | the server parses the request's own fields, and its value up to nil and empty |
| RpcClients.WrittenRequestArrives | mqttpb/rpc_client.go:81-128 | for any number, method, message and encoding the server parses just those; a parameter that is no message is refused |
| RpcClients.HeaderOfAnyResponse | mqttpb/rpc_client.go:156-162 | for any number a header reports and unregisters the method of that number, with the response's error text |
| RpcClients.CallEndsAtHeader | mqttpb/rpc_client.go:132-169 | what Call returns for nothing, for a response that does not parse or decompress, for another number and for an error text |
| RpcClients.CallEndsWithBody | mqttpb/rpc_client.go:173-198 | else it returns what reading the body gives |
| RpcClients.BodyReads | mqttpb/rpc_client.go:173-198 | no error for a nil target or an empty body, the refusal of a target that is no message or of another type, and the parser's own error for a malformed body |
| RpcClients.LateReaderTakesTheEntry | mqttpb/client.go:107-109 | if an old reader still uses the codec, its response takes the new call's entry and the own response reports no method |
| LateReaders.NewCallUnderLateReader | mqttpb/client.go:107-109 | with an old reader on the new connection, a Call that reaches the end of its stream returns its own outcome if the old reader took nothing, and ends with an unexpected end of file, the reply untouched, if it took all; it has got nothing exactly then |
| LateReaders.ReplyMayBeTaken | mqttpb/rpc_client.go:65-67 | for any response there is a run of the connection in which the old reader takes all of it |
| LateReaders.CallBesideLateReader | mqttpb/rpc_client.go:132-198 | in every interleaving of both readers on one codec, a Call returns the outcome of the bytes it got if nobody wrote to the response object while it relied on it; no error and an untouched reply if somebody did and took no byte; an unexpected end of file if it got nothing |
| LateReaders.UndisturbedCallGetsItsResponse | mqttpb/client.go:107-109 | beside an old reader that takes no byte, the Call returns its own outcome if the response object was left alone, else no error and its reply as it was |
| LateReaders.LateResetLosesTheResponse | mqttpb/rpc_client.go:132-133 | for any response, a result or an error, some run of both readers loses it so |
| LateReaders.EarlierReaderTakesResponseAndEntry | mqttpb/rpc_client.go:147-159 | an old reader with bytes of a whole response puts it in the place of any other, and takes its number out of the table |
| RpcClients.RPCClientCodec.WriteRequest | mqttpb/rpc_client.go:81-128 | the table, the request object and the bytes written are those of the functional description, errors included |
| RpcClients.RPCClientCodec.ReadResponseHeader | mqttpb/rpc_client.go:132-169 | the response object, the table and the header are those of the functional description, end of file included |
| RpcClients.RPCClientCodec.ReadResponseBody | mqttpb/rpc_client.go:173-198 | the target and the error for nil, non-protobuf, empty, mismatched and matching bodies |
| RpcClients.RPCClientCodec.Call | mqttpb/client.go:91-111 | the object, driven through one Call, returns and leaves what the functional codec says |
| Conns.StreamTheorem | mqttpb/conn.go:39-65 | in every interleaving and for all read sizes the bytes that the one reader of a Call reads are a prefix of the message, all of it at its end, and line 61 reports end of file only after Close and with nothing read; ready implies a reader |
| Conns.CallbackReturnsIffReaderWaits | mqttpb/conn.go:44 | with any number of readers, the callback's send completes in some continuation if and only if a reader waits at the channel now |
| Conns.EarlyMessageMakesCallbackPanic | mqttpb/conn.go:80-84 | a message before the first read is read in full, and Close then makes its callback panic |
| Conns.ReadyReaderProceeds | mqttpb/conn.go:55-65 | a reader that has seen ready never waits |
| Conns.ReaderProceedsOrWaits | mqttpb/conn.go:55-62 | a reader inside Read has a step unless it waits on the open channel and nobody sends, and Close ends such a wait with the end of file |
| Conns.CopyTakesWhatFits | mqttpb/conn.go:55-65 | a read returns as much as its buffer takes, and the end exactly behind the message |
| Conns.SecondReaderTakesAway | mqttpb/conn.go:55-65 | two readers of one connection share the bytes of the message: one that comes to its end has all of it exactly when the other took nothing, and nothing exactly when the other took all |
| Conns.StarvedReaderWaitsForClose | mqttpb/conn.go:59-62 | a reader that waits while the callback has met another one waits until Close |
| Conns.RpcConn.Read | mqttpb/conn.go:55-65 | returns the front of what is left, up to the buffer's size, after waiting for the message if it is not there; end of file exactly when nothing is left or the wait ends with Close |
| Conns.RpcConn.ReadAll | mqttpb/rpc_client.go:135 | with any positive buffer sizes the chunks concatenate to all that is left, the wait for the message included |
| Conns.RpcConn.OnMessage | mqttpb/conn.go:41-43 | stores the payload from its start and sets ready |
| MqttPb.HandlerBindsTheArgument | mqttpb/context.go:85-96 | for every encoding and any earlier calls of the codec, the handler binds the client's argument, and any other type is refused |
| MqttPb.BindsExactlyWhatParses | mqttpb/context.go:85-96 | a target is bound exactly if it is a message of the body's type whose value parses; else the handler gets the reason, the parser's own for a malformed value |
| MqttPb.PublicationCarriesTheResponse | mqttpb/server.go:81-134 | what is published for any response parses to the request's id and encoding, the error's status (as int32) and text or 200 and no text, and exactly without an error to a body with the result's type and bytes, or those of an empty message |
| MqttPb.ClientSeesTheResponse | mqttpb/context.go:99-110 | the client gets the error text and keeps its reply object, or gets the result, or a type mismatch |
| MqttPb.ExactTransparency | mqttpb/rpc_client.go:173-198 | Call succeeds with the reply equal to the result if and only if the types agree, or the result has no content and the reply already was it |
| MqttPb.Transparency | mqttpb/server.go:95-108 | a reply object of the result's type that starts at its default ends equal to the result, for every encoding |
| MqttPb.StaleReplySurvives | mqttpb/rpc_client.go:184-187 | a reply object with content keeps it where the result has none |
| MqttPb.EmptyErrorIsLost | mqttpb/server.go:112-117 | an error with an empty text leaves the reply and is no error, or a broken stream |
| MqttPb.WholeExchange | mqttpb/client.go:137-161 | request, topic, response and return of one Call after any earlier ones, composed |
| Gateways.PublishedIsOwnExactlyWhenIntact | mqttpb/server.go:124-135 | with one codec for all calls, a publication is that of its call's own response exactly when what other calls wrote to the array between its compression and its copy left its bytes as they were; that nobody drew the buffer is enough |
| Interferences.SafeConfigurations | mqttpb/server.go:124-135 | with one worker, with a plain or unknown encoding, or for an error, no interleaving touches the bytes, and the call's own response is published |
| Interferences.CallsInterfere | mqttpb/server.go:162 | else, for any two requests of one method, any results, any pieces of their streams and any slack in new arrays, some run publishes the first stream with the fitting pieces of the second over it, intact exactly when one of the two is a prefix of the other |
| Interferences.CallsMaySwapBodies | mqttpb/server.go:162 | for results of one type that compress to equally many bytes, that run answers the first request with the second's result |
| Gateways.PublicationsCorrelate | mqttpb/server.go:81-134 | every publication, interfered with or not, is on the reply topic and carries the id of a received message of its own; a retained one gets id 0 and status 400, an unparsable one status 400 and its parse error, any other its response's error text; the body parses where the marshalling was left intact |
| Gateways.MessagesBecomeCallsOrAreRefused | mqttpb/server.go:137-165 | a message that is retained, does not parse or does not decompress starts no call and is answered 400 with that reason; any other becomes exactly one call, of the method parsed |
| Gateways.UnmarshallableResultPanics | mqttpb/server.go:95-108 | a job panics inside its reply exactly if its result does not marshal, and then nothing is published |
| Gateways.PublishesEqualMessages | mqttpb/server.go:137-165 | once all calls and jobs are over, publications equal received messages if and only if every response marshalled |
| Gateways.AttemptsEqualMessages | mqttpb/server.go:137-165 | once all calls and jobs are over, every received message has exactly one reply |
| Gateways.ClientGetsASequentialOutcome | mqttpb/client.go:137-161 | among any other messages and calls, what is published for a client's request reaches that client's topic, and where its marshalling was left intact, its Call returns the outcome of one sequential execution |
| MqttJson.HandlerDecodesTheArgument | mqttjson/context.go:63-74 | the handler decodes the text the client encoded, then validates |
| MqttJson.JsonClientSeesTheResponse | mqttjson/rpc_client.go:86-128 | what the client returns for any response, in terms of the response alone |
| MqttJson.JsonPublicationCarriesTheResponse | mqttjson/server.go:79-113 | what is published for any request and response: the reply topic, the request's id and method, the handler's status or 200, and the text of the error or the result |
| MqttJson.JsonCallEnds | mqttjson/rpc_client.go:86-128 | what Call returns for every response: one that does not decode, an error text, another number, no data, a nil or other reply object |
| MqttJson.JsonErrorNeedsStatus | mqttjson/server.go:104-113 | the header carries the handler's error text if and only if the status is not 200 or the text is empty |
| MqttJson.UnencodableResultIsLost | mqttjson/server.go:93-100 | for a result that does not encode the client decodes null into its reply; Call returns no error and the reply stays exactly when null decodes so |
| MqttJson.JsonTransparency | mqttjson/rpc_client.go:123-128 | Call succeeds with the handler's result in the reply exactly when the result's text decodes to it there |
| MqttJson.PlainResultArrives | mqttjson/rpc_client.go:123-128 | a value that JSON keeps arrives in every empty reply object of its type |
| MqttJson.PlainCallSucceeds | mqttjson/client.go:75-95 | a whole Call with such an argument and such a result: the handler binds the one, the client gets the other |
| MqttJson.JsonWholeExchange | mqttjson/client.go:75-95 | request, binding, topic, response and return of one Call, composed |
| MqttJson.ErrorsAgree | mqttpb/server.go:112-117 | a non-empty error text with a status other than 200 is returned by both clients, whose reply objects stay |
| MqttJson.JsonClientCodec.WriteRequest | mqttjson/rpc_client.go:50-76 | a parameter that does not encode registers nothing; else the table, the request and the bytes written |
| MqttJson.JsonClientCodec.ReadResponseHeader | mqttjson/rpc_client.go:86-117 | the response as decoded into what was there, the table and the header, with the error text by status; a payload that does not decode returns its error and leaves the table |
| Adapters.LiveIsRegisteredMinusRemoved | mqttadapter/mqtt.go:153-195 | over any operations the counter is the number of registrations, and the live callbacks are exactly those registered and not removed since |
| Adapters.IndicesAreNeverReused | mqttadapter/mqtt.go:161-164 | two registrations never share an index |
| Adapters.TableIsLastRequest | mqttadapter/mqtt.go:260-269 | a topic is in subscribeMap if and only if some request subscribed to it and none since dropped it |
| Adapters.OnceMayRemoveAnother | mqttadapter/mqtt.go:127-137 | if the connection comes up inside OnConnectOnce, the other callbacks stay if and only if index 0 is not live |
| Adapters.MQTTClientAdapter.OnConnect | mqttadapter/mqtt.go:153-165 | registers under the next index, and runs the callback at once when connected |
| Adapters.MQTTClientAdapter.SubscribeMultiple | mqttadapter/mqtt.go:324-335 | adds every topic of the filters |
| Adapters.RunHistory | mqttadapter/mqtt.go:127-195 | over any history of operations on one adapter both registries and the table are those of the operations on each |
| Adapters.MQTTClientAdapter.UnsubscribeAll | mqttadapter/mqtt.go:367-381 | while others go on between any two of its deletions: a topic that was not collected is in the table as the others' operations say, and one that was is there only if somebody subscribed to it since |
| Adapters.FinishedCallsComeBack | mqttpb/conn.go:39-46 | n finished Calls leave n more live callbacks and no topic, and the next connection subscribes to all n response topics |
| Adapters.OpenCallIsSubscribed | mqttpb/conn.go:39-46 | while a Call is open its response topic is in the table |

## Left out

- Handlers that reply from goroutines of their own after they have returned, or that pass a nil response: a handler here replies from its job.
- A crash of one call ends the Go process; in the model the other calls go on, so the theorems cover more runs than the program has.
- RegisterMetrics, telemetry, tracing, logging: no functional result. Metadata is kept as a map.
- Weak memory, the unlocked read of `handlerMap`, and unlocked fields of the connection: every step is atomic and memory sequentially consistent.
- Real time, the retry loop of the adapter, fairness: timeouts are choices. A limiter in wait mode refuses or admits at will.
- Limiters.AdmissionBoundAnyOrder: tokens are real numbers; the rounding of the limiter's floating point is not modelled, nor a duration that is not positive.
- The JSON server over all received messages: it differs from `Gateway.dfy` in running each Call inside the message callback, one at a time; its replies are modelled one by one.
- mqttjson/conn.go: the same state machine as `Conn.dfy`.
- Broker, sockets, TLS, adapter options and reconnects: the broker is delivery by filter. Multi-level wildcards do not occur in the filters.
- A second message on a response topic, and a second `Close`.
- Compressors.CompressorManager.Compress: the buffer that a compression draws must not hold its input, and one call runs at a time; `SharedPool.dfy` is about overlapping ones. The writer pools of the three formats are one sequence from which a writer is drawn for its own format only.
- Codecs.Codec.Marshal: likewise for the body's value; the transports give every message a new one.
- SharedPools.CopyIsOwnExactlyWhenIntact: a copy is one step; one that overlaps a write would see a part of each.
- RpcClients.PooledCodecActsFresh: the old reader has stopped, which `LateReader.dfy` shows to be needed; a message that fails to parse leaves nothing in the reply object beyond what the library puts there.
- LateReaders.CallBesideLateReader: what the libraries make of a proper part of a response, and a Call whose response object the old reader overwrote with bytes that it had taken.
- Strings are texts of Unicode characters; the replacement of invalid bytes by encoding/json is not modelled.
- Two Go types with the same printed name are one type here, as in the code.
- The waiting variants of the adapter's operations differ only in their error.
