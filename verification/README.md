# ApertureDB client library: a verified model

This project models the parts of the ApertureDB C++ client library in which bytes, tokens, metrics and
times must not get lost, and proves what they promise for every input and every run.

* **Framed messages.** `Wire` is the frame format. `Channel` is one direction of a connection as a state
  machine: `send_message`, a byte pipe, `recv_message`, with the operating system choosing every chunk
  size, every failure and every interleaving, and the callers calling again after an exception or not.
  `Transfers` says what a call comes to for each sequence of answers of the operating system, and when it
  returns; `Connection` has the classes, with their loops, over a socket whose replies are arbitrary;
  both transports, TCP and TLS, are methods of one class that branches on the transport where the C++ has
  virtual functions. `Refinement` shows that each call of the code, and each sequence of calls, is a run
  of the machine, and what follows for the code.
* **Handshake and session.** `Handshake` is the choice of a transport, `Negotiation` the client and server
  classes that make it, `Session` the two ends running together on two pipes, handshake and application
  traffic included, and `SessionCode` shows that however the two methods go they are a run of it.
* **Tokens.** `Tokens` is the client against a peer that may answer anything, after any history; `Lockstep`
  is the rotating test server and the two together; `TokenClasses` has both classes.
* **Metrics.** `Metrics` and `MetricsRoundTrip` are the JSON writer and reader and their normal form;
  `MetricsSchema` is the JSON key by key and what is read of JSON from elsewhere; `MetricsCode` has the
  loops.
* **Waiting times.** `TimerLaw` is a discrete Little's law for timers, `Timer` and `TimedQueue` the classes
  that obey it.
* **Base64.** `Base64` is the codec of section 4 of RFC 4648 with the size arithmetic and the padding loop.

What the code cannot choose is an argument or a field that nothing constrains: the replies of a socket and
the bytes its peer sends, clock readings, random numbers, faults, and how a double is printed and read
(`Metrics.Doubles`). Exceptions are results. A socket has finitely many replies and fails when it has none
left; that is what bounds zero-length writes and TLS read timeouts. The byte order of the machine is a
constant without a value, so both orders are covered.

## Results that correct an expectation

* Messages arrive in order in *all* runs exactly when the receiver's limit is not below the sender's and
  no call is made after one that failed inside a frame (`Channel.FifoExactly`, for every habit of the
  callers). `recv_message` refuses an oversized frame after its header and does not skip the body, so the
  next call reads the body as a header; a receive that fails after the header leaves the body to the next
  one; a send that fails after the header makes the next frame look like its body. A call that failed
  before its first byte can be repeated without loss (`Channel.RetryWithoutLoss`). In any one run that
  gave up no frame on the wire, everything arrives in order exactly when the receiver lost no byte
  (`Channel.DeliveredExactly`).
* The client keeps the server's tokens, and its queries are answered by their own echoes, exactly when no
  reply was ever left unread (`Lockstep.LockstepExactly`): a reply that a failed receive leaves in the
  stream is what the next call gets, and the client never catches up (`Lockstep.NeverCaughtUp`), so that
  an ordinary echo can be taken for an answer with tokens (`Lockstep.UnreadEchoBreaksStep`).
* Against the test server a client is constructed exactly when it has a user name
  (`Lockstep.ConstructionExactly`): the API key request lacks the `username` field the server asks for, is
  echoed as an ordinary query, and the echo holds no token.
* Reading the JSON of metric families throws exactly when some number written cannot be read back
  (`MetricsRoundTrip.MetricsRoundTrip`); this is so of the largest double, whose
  16 digits denote a number out of its range. Families come back unchanged exactly when
  every metric is tidy and every number written survives (`MetricsRoundTrip.RoundTripExactly`).
* Which queries of a user keep the lockstep: exactly those that are JSON and no token request, unless the
  server draws the same tokens again (`Lockstep.UserQueryKeepsStepExactly`).

## Model

| member | source | states |
|---|---|---|
| Wire.WordBijection | src/comm/Connection.cc:60-60 | a `uint32_t` and its four bytes determine each other, for either byte order |
| Wire.WordLayout | src/comm/Connection.cc:60-60 | the bytes are those of the word, least significant first or last, as the machine has it |
| Wire.FramePrefixFree | src/comm/Connection.cc:60-70 | no frame is a proper prefix of another: equal wires that start with frames start with the same message and continue alike |
| Wire.FramesInjective | src/comm/Connection.cc:60-70 | two different message sequences never give the same bytes |
| Wire.UniqueParse | src/comm/Connection.cc:91-107 | a wire of whole frames and an incomplete rest has one parse, the one a frame-by-frame reader finds |
| Wire.ParseCovers | src/comm/Connection.cc:91-107 | every wire is the frames found in it followed by a rest that holds no whole frame |
| Wire.PrefixRead | src/comm/Connection.cc:91-121 | whoever has read whole frames off a wire has read a prefix of exactly the messages written |
| Channel.FifoRefinement | src/comm/Connection.cc:51-122 | over every interleaving, chunking and failure, with calls again after a call that failed before its first byte, for messages within both limits: received messages are a prefix of sent ones, all of them once the pipe is drained, none is refused; the wire is whole frames and a strict prefix of one; observed bytes are payload sums, wire bytes four more a message, and equal at both ends when drained |
| Channel.FifoExactly | src/comm/Connection.cc:51-122 | delivery is in order in all runs if and only if the sender's limit is at most the receiver's and neither end is called again after a call that failed inside a frame |
| Channel.DeliveredExactly | src/comm/Connection.cc:51-122 | in any run, whatever the callers do, that gave up no frame on the wire: a drained channel has delivered every message in order if and only if the receiver lost no byte |
| Channel.ReceiverParses | src/comm/Connection.cc:77-122 | in any run, whatever the sender does, a receiver that lost nothing has returned exactly the frames of the bytes it took |
| Channel.RetryWithoutLoss | src/comm/Connection.cc:66-89 | a receive, or a send, that failed before its first byte can be called again as if it had not been called |
| Channel.CarefulKeepsClean | src/comm/Connection.cc:51-122 | no step of careful callers gives up a frame or loses a byte of messages that fit |
| Channel.RefusedBodyIsRead | src/comm/Connection.cc:98-103 | for every pair of limits with the receiver's below the sender's, a run in which a message is received that was never sent |
| Channel.HalfReadBodyIsRead | src/comm/Connection.cc:81-89 | such a run for every pair of limits, if a receive is called after one that failed inside a frame |
| Channel.HalfWrittenFrameIsRead | src/comm/Connection.cc:60-70 | such a run for every pair of limits, if a send is called after one that failed inside a frame |
| Channel.ErrorFreeProgress | src/comm/Connection.cc:66-89 | without errors each system call shortens what is left to do, and a run can stop only when everything accepted was delivered |
| Channel.ApplyKeepsInv | src/comm/Connection.cc:51-122 | every single step keeps the relation between the wire, the sends and the receives, every byte accounted for |
| Channel.Grows | src/comm/Connection.cc:51-122 | nothing completed, written, read or delivered is ever taken back, and limits do not change |
| Refinement.SendIsARun | src/comm/Connection.cc:51-75 | every outcome of the send method, also after a failed one, is a run of the channel with the same bytes on the wire, the same result and the same byte count |
| Refinement.ReceiveIsARun | src/comm/Connection.cc:77-122 | every outcome of the receive method, returned, refused or failed, also after a failed one, is a run of the channel that takes the same bytes |
| Refinement.SendsAreARun | src/comm/Connection.cc:51-75 | so is every sequence of calls of the send method |
| Refinement.ReceivesAreARun | src/comm/Connection.cc:77-122 | so is every sequence of calls of the receive method |
| Refinement.CallsAreFifo | src/comm/Connection.cc:51-122 | any sequence of sends and any sequence of receives, with any outcomes the methods allow, none after a call that failed inside a frame: nothing is refused, the messages returned are a prefix of those sent, and when everything was read they are the same and both metrics agree |
| Connection.ReceivedIsSent | src/comm/Connection.cc:77-122 | a receive at the front of a sent frame returns that message and takes just its frame, whatever follows; it refuses exactly for size |
| Transfers.SendThrowsExactly | src/comm/Connection.cc:51-75 | a send within the limit throws, and then WriteFail, if and only if its first reply took fewer than the 4 header bytes, failed or was missing, or a later one that it used failed (over TLS also one that took nothing), or none was left while bytes remained; what is on the wire is what the replies took |
| Transfers.SendReturns | src/comm/Connection.cc:66-70 | it returns, the whole frame being out, if the header goes out at once and each further reply takes at least one byte |
| Transfers.ReadOnceExactly | src/comm/TCPConnection.cc:56-77 | one read: the reply at which it stops decides what is returned or which exception is thrown; over TLS it goes on over timeouts |
| Transfers.ReadLoopExactly | src/comm/Connection.cc:81-89 | the loop fails if and only if a reply it used is an error, other than a timeout of TLS, or gives nothing, or the peer closes early, or no reply is left; it then has what the replies gave |
| Transfers.ReceiveThrowsExactly | src/comm/Connection.cc:77-122 | a receive throws a transport error if and only if it is so starved of its header or of the body the header announces; it refuses exactly a whole header above the limit, and else returns the body |
| Transfers.ReceiveReturns | src/comm/Connection.cc:81-107 | it returns the message whose frame comes if each of the next 4 + n replies gives at least one byte |
| Connection.Connection.SendMessage | src/comm/Connection.cc:51-75 | for every sequence of socket replies it returns, throws, writes and uses replies as the function of `Transfers.SendThrowsExactly` says; refused for size it writes nothing; failing it leaves a strict prefix of the frame; bytes are counted only when it returns; a released connection throws |
| Connection.Connection.RecvMessage | src/comm/Connection.cc:77-122 | for every sequence of socket replies it returns or throws, and takes bytes and replies, as the function of `Transfers.ReceiveThrowsExactly` says; it holds the body in its buffer; refused for size the buffer is untouched; over TCP at most one read a byte taken (one more if it fails); the three short-read branches are dead |
| Connection.Connection.ReceiveAndCheck | src/comm/Connection.cc:81-89 | fills exactly the bytes asked for from the front of the stream, or throws, as the replies say |
| Connection.Connection.ResizeBuffer | src/comm/Connection.cc:105-105 | the buffer has the announced size, keeps what fits and is zero elsewhere |
| Connection.Connection.constructor | src/comm/Connection.cc:40-43 | starts with the default limit of 268435456 bytes and an empty buffer |
| Connection.Connection.SetMaxBufferSize | src/comm/Connection.cc:124-128 | the limit is the nearest value in [1024, 1073741824], which every other operation keeps |
| Connection.Connection.CheckMessageSize | src/comm/Connection.cc:47-47 | true exactly when no send of a message of that size, and no receive of its frame, is refused for size |
| Connection.Connection.Read | src/comm/TCPConnection.cc:49-78 | both transports, by the replies: 1 to length bytes of the stream, in the caller's place, or the exception that the reply causes and nothing taken; lengths survive the conversion to `int` |
| Connection.Connection.ReadTLS | src/comm/TLSConnection.cc:35-73 | the retry loop of TLS, which ends, and how each SSL error ends it |
| Connection.Connection.Write | src/comm/TCPConnection.cc:82-96 | both transports, by the reply: as many bytes go out as it takes, or an exception and none does |
| Connection.Connection.ReleaseSocket | src/comm/TCPConnection.cc:80-80 | hands the socket over and leaves none |
| Handshake.HelloInverse | src/comm/HelloMessage.h:12-15 | the eight bytes of a hello give the hello back |
| Handshake.FlagTests | include/comm/Protocol.h:19-19 | the two mask tests look at one bit each |
| Handshake.AllowsAnd | src/comm/ConnServer.cc:140-140 | the intersection allows a transport exactly when both ends do |
| Handshake.HellosOnTheWire | src/comm/ConnServer.cc:133-144 | the two words on the wire: the greeting is version 1 and all bits the client allows; the answer to version 1 is version 1 and exactly the bits both allow, to any other two zeros |
| Handshake.ChoiceOfWords | src/comm/ConnServer.cc:146-165 | what the two words of an answer mean to both ends: bit 1 TLS, else bit 0 TCP, else refusal; version 0 is refusal |
| Handshake.AndIsBitwise | src/comm/ConnServer.cc:140-140 | the intersection is bit by bit |
| Handshake.Agreement | src/comm/ConnServer.cc:131-165 | for all versions and all 32-bit flags both ends choose alike: TLS exactly when versions match, are not 0 and both allow TLS; TCP exactly when so for TCP and not for TLS; else both throw |
| Negotiation.ConnServer.NegotiateProtocol | src/comm/ConnServer.cc:121-166 | for every sequence of socket replies: takes one hello and nothing after it, answers with one frame, and returns a fresh connection on the same socket over the chosen transport, the old one being left without socket; each way to fail, with what was read and written by then |
| Negotiation.ConnServer.Accept | src/comm/ConnServer.cc:168-176 | a TCP connection on the accepted socket with the default limit |
| Negotiation.ConnClient.Connect | src/comm/ConnClient.cc:70-139 | a cached connection is returned as it is; otherwise, for every sequence of socket replies, one hello out, one in, 12 bytes each, and the connection of the chosen transport; a call that throws caches nothing |
| Negotiation.HandshakeOfTheCode | src/comm/ConnClient.cc:99-135 | the two methods on one connection: each hello is received as sent, 12 bytes, whatever follows, and both ends choose the same transport, from the known flags alone |
| Session.SessionAgreement | src/comm/ConnServer.cc:131-165 | in every run of both ends the client decides after the server and alike, as versions and known flags say |
| Session.SessionComposition | src/comm/ConnServer.cc:121-166 | in every run, once both have decided: the first 12 bytes of each direction are the hello, the rest is the application's and arrives in order, all of it when drained; without TCP exactly 12 bytes were written and read |
| Session.ClientDecisionTakesTwelve | src/comm/ConnClient.cc:104-133 | at the step in which the client decides it has read 12 bytes, however many more were there |
| Session.ServerDecisionTakesTwelve | src/comm/ConnServer.cc:125-164 | at the step in which the server decides it has read 12 bytes and written 12 |
| Session.HandshakeNeverStuck | src/comm/ConnClient.cc:104-107 | without I/O errors one of the two can always move on until both have decided |
| Session.PlayKeepsInv | src/comm/ConnServer.cc:121-166 | every step of either end keeps the session invariant |
| SessionCode.HandshakeIsAPlay | src/comm/ConnClient.cc:96-132 | however `connect` and `negotiate_protocol` go on one connection, failures at any byte included, the session has a run in which the same bytes move and the same is decided |
| SessionCode.HandshakeComposes | src/comm/ConnServer.cc:121-166 | when `connect` gets its answer the server has decided, for the same transport, and what is left for the two connections is what the application sends on them, from byte 12 on |
| SessionCode.SessionOfTheCode | src/comm/ConnClient.cc:96-132 | after that handshake, whatever calls the two applications make, none after one that failed inside a frame, messages arrive in order in both directions, all of them when everything was read |
| Tokens.TokenSteps | src/aperturedb/VDMSClientImpl.cc:152-176 | a token request goes out without token; the stored token is replaced exactly when a usable one came back, else it is as before |
| Tokens.TokenRequestsRead | src/aperturedb/VDMSClientImpl.cc:152-176 | what the peer reads from the token requests in the log: under Authenticate exactly the user name and the password, or without user name exactly the API key as token; under RefreshToken exactly the stored refresh token |
| Tokens.ResponseIsRead | src/aperturedb/VDMSClientImpl.cc:43-87 | which responses are accepted, key by key, and what each field becomes; absent lifetimes are -1, an absent refresh token is empty |
| Tokens.ProcessTokenResponse | src/aperturedb/VDMSClientImpl.cc:43-87 | a response is accepted only with a non-empty session token, and is stamped with the clock reading |
| Tokens.QueryShape | src/aperturedb/VDMSClientImpl.cc:133-150 | against any peer, a call that returns has sent [Q], [Auth,Q], [Refresh,Q] or [Auth,Refresh,Q]; Auth exactly when the nanoseconds since the token was issued had reached the refresh lifetime, Refresh exactly when they had reached the session lifetime of the token then held; Q under a session token judged unexpired or obtained in the call |
| Tokens.LifetimeOfTokens | src/aperturedb/VDMSClientImpl.cc:115-150 | a call whose readings lie before the shorter lifetime has passed sends exactly its query; one whose first reading is at the refresh lifetime or later sends the credentials first |
| Tokens.QueryKeepsOk | src/aperturedb/VDMSClientImpl.cc:133-150 | whatever fails in a call, a non-empty session token stays |
| Tokens.TokenSurvives | src/aperturedb/VDMSClientImpl.cc:133-176 | in every state of every run after construction there is a non-empty session token, and only the client's own authentication calls were sent without one |
| Tokens.ConstructOk | src/aperturedb/VDMSClientImpl.cc:91-111 | a constructed client holds a session token |
| TokenClasses.VDMSClientImpl.Create | src/aperturedb/VDMSClientImpl.cc:91-111 | construction is one authentication; it fails when that throws |
| TokenClasses.VDMSClientImpl.NeedsReAuthentication | src/aperturedb/VDMSClientImpl.cc:115-122 | whether the nanoseconds since the token was issued have reached the refresh lifetime, by the reading taken |
| TokenClasses.VDMSClientImpl.NeedsTokenRefresh | src/aperturedb/VDMSClientImpl.cc:124-131 | whether they have reached the session lifetime |
| TokenClasses.VDMSClientImpl.ProcessResponse | src/aperturedb/VDMSClientImpl.cc:43-87 | the field-by-field code is the function the results are about |
| TokenClasses.VDMSClientImpl.Query | src/aperturedb/VDMSClientImpl.cc:133-150 | the method changes the client, and answers, as the function the results are about |
| TokenClasses.VDMSClientImpl.ReAuthenticate | src/aperturedb/VDMSClientImpl.cc:152-166 | as above; the request made is read as the user name and the password, or as the API key |
| TokenClasses.VDMSClientImpl.RefreshToken | src/aperturedb/VDMSClientImpl.cc:168-176 | as above; the request made is read as the stored refresh token |
| TokenClasses.VDMSClientImpl.Send | src/aperturedb/TokenBasedVDMSClient.cc:50-86 | one request, one answer or exception |
| TokenClasses.AuthEnabledVDMSServer.RandomString | test/AuthEnabledVDMSServer.cc:16-33 | the loop draws one character a position |
| TokenClasses.AuthEnabledVDMSServer.RegenerateTokens | test/AuthEnabledVDMSServer.cc:154-158 | both tokens are new, the refresh token drawn first |
| TokenClasses.AuthEnabledVDMSServer.Turn | test/AuthEnabledVDMSServer.cc:55-84 | a token request rotates and is told the new tokens, a query under the current token is echoed, another is rejected, text that does not parse ends the loop |
| TokenClasses.AuthEnabledVDMSServer.Serve | test/AuthEnabledVDMSServer.cc:42-85 | the loop answers requests in order up to the first that does not parse |
| TokenClasses.ServerLoopIsThePeer | test/AuthEnabledVDMSServer.cc:42-85 | without faults that loop is the peer of the lockstep results |
| Lockstep.RandomStringIs | test/AuthEnabledVDMSServer.cc:16-33 | 46 characters, each the one that rand() modulo 62 picks |
| Lockstep.CharsetIs | test/AuthEnabledVDMSServer.cc:18-24 | the 62 characters are the numerals, the capital and the small letters, in that order |
| Lockstep.RegenerateIs | test/AuthEnabledVDMSServer.cc:154-158 | the refresh token is made of the next 46 values of rand(), the session token of the 46 after them |
| Lockstep.TokenCommands | test/AuthEnabledVDMSServer.cc:100-139 | which commands are taken for Authenticate and for RefreshToken requests, by their keys |
| Lockstep.RepliesReadAs | test/AuthEnabledVDMSServer.cc:60-81 | what is read of a token reply, exactly five keys, and of a rejection |
| Lockstep.ReplyIsUnderstood | test/AuthEnabledVDMSServer.cc:60-73 | the client reads from a token reply exactly the tokens and expiries the server put in |
| Lockstep.TokenTexts | test/AuthEnabledVDMSServer.cc:100-139 | the server takes the client's token requests for what they are, an authentication exactly when there is a user name |
| Lockstep.TokenExchange | test/AuthEnabledVDMSServer.cc:57-73 | a token request whose reply is read leaves both ends with the same new tokens, whatever they held; one that cannot be sent changes nothing |
| Lockstep.QueryInStep | src/aperturedb/VDMSClientImpl.cc:133-150 | one user call in which no reply is left unread leaves the ends in step and is answered, if at all, by its echo; no answer only after a fault |
| Lockstep.TokenLockstep | src/aperturedb/VDMSClientImpl.cc:133-176 | after every call of every run the client holds the server's current tokens, for all clocks, expiries and failed sends, as long as no reply is left unread |
| Lockstep.RefreshPresentsCurrent | src/aperturedb/VDMSClientImpl.cc:168-176 | in step, every RefreshToken request that a call makes presents the refresh token that the server holds when it gets it |
| Lockstep.EveryRefreshIsCurrent | src/aperturedb/VDMSClientImpl.cc:168-176 | and so in every call of every run in which no reply is left unread |
| Lockstep.LockstepExactly | src/aperturedb/VDMSClientImpl.cc:133-176 | after a run in which anything failed, the client holds the server's tokens and every later query is answered by its own echo if and only if no reply of the run was left unread |
| Lockstep.NeverCaughtUp | src/aperturedb/TokenBasedVDMSClient.cc:50-86 | the number of unread replies never falls, and grows exactly when one is left unread |
| Lockstep.EchoedExactly | src/aperturedb/VDMSClientImpl.cc:133-150 | in any state of a running server the next plain query, whatever it is, gets its own echo if and only if every reply was read and the session token is the server's or one of the tokens has expired |
| Lockstep.UnreadEchoBreaksStep | src/aperturedb/VDMSClientImpl.cc:168-176 | when an echo is left unread and then a refresh falls due, the client takes the echo for the answer, throws and keeps its tokens while the server has rotated |
| Lockstep.EveryQueryIsEchoed | test/AuthEnabledVDMSServer.cc:74-81 | in a fault-free run from the start every plain query is echoed and never rejected |
| Lockstep.ConstructionExactly | src/aperturedb/VDMSClientImpl.cc:91-111 | a new client of a fresh server is constructed if and only if it has a user name, and is then in step |
| Lockstep.UserQueryKeepsStepExactly | test/AuthEnabledVDMSServer.cc:55-84 | after a user query of any text, whatever tokens the call renewed before, the ends are in step if and only if the text is JSON and no token request, or the server drew the same tokens again |
| Metrics.SortedKeys | include/metrics/JsonReader.h:79-79 | the keys of an object are visited once each in increasing order |
| MetricsRoundTrip.NormalLabels | include/metrics/JsonWriter.h:78-83 | one label for each name, by increasing name, with the value that `LastValue` picks |
| MetricsRoundTrip.LastValueIsLast | include/metrics/JsonWriter.h:80-82 | that value is the one of the last label of the name |
| MetricsRoundTrip.LabelsRoundTrip | include/metrics/JsonReader.h:76-84 | labels come back as their normal form |
| MetricsRoundTrip.MetadataRoundTrip | include/metrics/JsonReader.h:70-92 | labels and timestamp come back, absent labels and a zero timestamp included, whatever the value fields are |
| MetricsRoundTrip.TypeRoundTrip | include/metrics/JsonReader.h:32-55 | the first letter of a type name tells the type |
| MetricsRoundTrip.MetricRoundTrip | include/metrics/JsonWriter.h:74-118 | a metric of any of the five types comes back with its own type's value and nothing of the others, or reading throws when a number of it cannot be read |
| MetricsRoundTrip.MetricsRoundTrip | include/metrics/JsonReader.h:167-178 | reading the JSON of any list of families gives its normal form, empty lists included, if and only if every number written can be read, and throws otherwise |
| MetricsRoundTrip.WrittenAgain | include/metrics/JsonWriter.h:133-141 | writing what was read gives the same JSON if and only if every number written is printed again as it was |
| MetricsRoundTrip.SameJsonExactly | include/metrics/JsonWriter.h:133-141 | two family lists whose numbers are printed again as they were, and can be read, are written alike if and only if their normal forms are equal |
| MetricsRoundTrip.RoundTripExactly | include/metrics/JsonReader.h:167-178 | families come back unchanged if and only if every metric has its labels in strict order and only its own value set, and every number written comes back from its text; no assumption on numbers |
| MetricsSchema.TypeNames | include/metrics/JsonWriter.h:39-53 | a reader that goes by whole names, Counter, Gauge, Summary, Untyped and Histogram, finds the type |
| MetricsSchema.FamiliesSchema | include/metrics/JsonWriter.h:133-141 | one key, families, null or the list |
| MetricsSchema.FamilySchema | include/metrics/JsonWriter.h:120-131 | exactly the keys name, help, type and metrics, and what is under each |
| MetricsSchema.MetadataSchema | include/metrics/JsonWriter.h:78-87 | the keys labels and timestamp_ms are there exactly when there are labels and the timestamp is not zero, and what is under them |
| MetricsSchema.ValueSchema | include/metrics/JsonWriter.h:89-115 | the keys of a value by its type, and what is under each |
| MetricsSchema.MetricSchema | include/metrics/JsonWriter.h:74-118 | a metric has these keys and no others |
| MetricsSchema.ElementSchemas | include/metrics/JsonWriter.h:58-72 | the keys of buckets and quantiles |
| MetricsSchema.ReadTypeExactly | include/metrics/JsonReader.h:32-55 | the first letter decides, and all else is untyped |
| MetricsSchema.NativeNumbersAreRead | include/metrics/JsonReader.h:20-30 | a family whose values are JSON numbers is read as these numbers |
| MetricsSchema.NativeElementsAreRead | include/metrics/JsonReader.h:20-30 | so are the numbers of buckets and quantiles; counts wrap at 64 bits; nothing but numbers and number texts is read as a number |
| MetricsSchema.LabelsOfOtherShapes | include/metrics/JsonReader.h:76-84 | labels given as a list are named by their positions, a lone string has no name |
| MetricsSchema.LeqIsLexicographic | include/metrics/JsonReader.h:79-79 | keys are in the order of strings, a prefix first |
| MetricsCode.JsonWriter.WriteLabels | include/metrics/JsonWriter.h:78-83 | the loop assigns every label into one object |
| MetricsCode.JsonWriter.WriteBuckets | include/metrics/JsonWriter.h:102-105 | the loop builds the list in order, null if empty |
| MetricsCode.JsonWriter.WriteQuantiles | include/metrics/JsonWriter.h:110-113 | likewise |
| MetricsCode.JsonWriter.WriteMetric | include/metrics/JsonWriter.h:74-118 | the indexed assignments build the object the results are about |
| MetricsCode.JsonWriter.WriteFamily | include/metrics/JsonWriter.h:120-131 | likewise for a family; its type is one of the five whole names |
| MetricsCode.JsonWriter.WriteFamilies | include/metrics/JsonWriter.h:133-141 | likewise for a list of families |
| MetricsCode.JsonReader.EmplaceMetricMetadata | include/metrics/JsonReader.h:70-92 | the loop reads labels in key order and the timestamp, or throws |
| MetricsCode.JsonReader.ParseQuantiles | include/metrics/JsonReader.h:116-122 | the loop reads the list in order and throws at the first element it cannot read |
| MetricsCode.JsonReader.ParseBuckets | include/metrics/JsonReader.h:140-146 | likewise |
| MetricsCode.JsonReader.ParseMetric | include/metrics/JsonReader.h:94-148 | one turn of the loop of each of the five value parsers |
| MetricsCode.JsonReader.ParseFamilyValues | include/metrics/JsonReader.h:150-164 | the metrics of a family in order, or an exception |
| MetricsCode.JsonReader.ParseMetrics | include/metrics/JsonReader.h:167-178 | the families in order, or an exception |
| TimerLaw.LittlesLaw | include/metrics/Timer.h:34-64 | whatever order timers fire in: observed times plus ages of running timers grow by the number of running timers summed over time, and every timer begun has fired once or runs |
| TimerLaw.RunStaysSane | include/util/ScopeTimer.h:33-50 | no observed time is ever negative |
| Timer.ElapsedIsExact | include/util/ScopeTimer.h:38-47 | the elapsed time is the exact nanosecond difference, also when the nanosecond field borrows, and not negative exactly when the clock did not go back |
| Timer.Timer.constructor | include/metrics/Timer.h:34-38 | a timer starts now if there is a metric, and the start is counted |
| Timer.Timer.Reset | include/metrics/Timer.h:55-64 | a running timer fires once, into its own metric; a new one starts if there is a metric |
| Timer.Timer.MoveFrom | include/metrics/Timer.h:47-53 | the target's timer fires, the other's goes on in the target; moving onto itself changes nothing |
| Timer.Timer.Destroy | include/util/ScopeTimer.h:38-50 | a running timer fires once |
| TimedQueue.TimedQueueLaw | include/metrics/TimedQueue.h:47-79 | over any run from empty: waits observed plus ages of queued elements equal the queue length summed over time; values leave in push order; pushes are counted; observations are pushes minus size, none negative |
| TimedQueue.QueueLaw | include/metrics/TimedQueue.h:47-79 | the same from any state of a run |
| TimedQueue.DrainedLaw | include/metrics/TimedQueue.h:47-79 | once all elements are popped, everything pushed has left in order, observed once each, and the waits have grown by the ages the elements had |
| TimedQueue.ApplyTimers | include/metrics/TimedQueue.h:47-69 | a queue operation is the timer operation of its elements: a push begins one, a pop fires the oldest |
| TimedQueue.TimedQueue.PushBack | include/metrics/TimedQueue.h:47-52 | appends the value with a timer of its own, and is the push of the machine |
| TimedQueue.TimedQueue.PopFront | include/metrics/TimedQueue.h:69-69 | drops the front, observes its wait, and is the pop of the machine |
| TimedQueue.TimedQueue.ReleaseFront | include/metrics/TimedQueue.h:74-79 | likewise, and returns the front value |
| TimedQueue.TimedQueue.Front | include/metrics/TimedQueue.h:72-72 | the oldest value |
| TimedQueue.TimedQueue.Size | include/metrics/TimedQueue.h:71-71 | the number of values |
| TimedQueue.TimedQueue.Destroy | include/metrics/TimedQueue.h:29-29 | destroying the queue observes every element left, from the front, and is as many pops of the machine; a queue that obeyed the law has then observed as many waits as there were pushes |
| Base64.Sizes | include/util/Base64.h:26-37 | the decode buffer for n encoded bytes is too large by (3 - n % 3) % 3 |
| Base64.SizesRoundUp | include/util/Base64.h:26-37 | both size functions round up to whole groups |
| Base64.EncodedSize | include/util/Base64.h:40-50 | the encoder writes as many characters as the size function says |
| Base64.DecodedSize | include/util/Base64.h:53-61 | the decoder writes as many bytes as the size function says, for multiples of four only |
| Base64.BlockRoundTrip | include/util/Base64.h:53-66 | decoding an encoding gives the bytes and then zeros, one for each pad, of which there are (3 - n % 3) % 3 |
| Base64.RoundTrip | include/util/Base64.h:40-69 | decode(encode(x)) is x for every byte sequence |
| Base64.Table1 | include/util/Base64.h:40-50 | the digits are the 64 characters of Table 1 of RFC 4648 in their order |
| Base64.GroupIs24Bits | include/util/Base64.h:40-50 | the four characters of a group are the digits to base 64 of its 24 bits |
| Base64.TestVectors | include/util/Base64.h:40-69 | the vectors f, fo and foo of section 10 of RFC 4648, both ways |
| Base64.TailLoopStops | include/util/Base64.h:62-66 | the tail loop stops inside the text exactly when some character is no pad, as in every encoding |
| Base64.Decode | include/util/Base64.h:53-69 | the method with its loop is the function the round trip is about |
| Base64.CanonicalExactly | include/util/Base64.h:40-69 | encode(decode(s)) is s if and only if s is groups of four digits, the last with up to two pads and no stray bits |

## Left out

- Session.SessionComposition: both ends keep the default size limit they are constructed with; the effect of different limits is the subject of Channel.FifoExactly. After TLS was chosen the bytes of that direction are those of the TLS library and are not followed.
- Channel.FifoRefinement: the limits of the two ends are fixed in a run.
- Session.SessionAgreement: applications call again only after a call that moved no byte; what happens otherwise is the subject of Channel.FifoExactly.
- Lockstep.LockstepExactly: a send fails before its first byte and a receive before its first byte, or not at all; a call that fails inside a frame leaves the stream out of alignment, which is the subject of Channel.FifoExactly.
- Connection.Connection.Read: a socket has finitely many replies, so the TLS retry loop meets finitely many timeouts; nothing in the code bounds them.
- Connection.Connection.ResizeBuffer: the buffer is replaced by a new one where the source grows it in place, so a reference held across two receives is not modelled.
- MetricsRoundTrip.MetricsRoundTrip: how the C++ library prints and reads doubles is a parameter of which nothing is assumed; which doubles it can read back is not proved here.
- Metrics.ReadAll: a missing key in a constant JSON object, which is undefined behaviour in the JSON library, is modelled as an exception.
- MetricsCode.JsonReader.ParseFamilyValues: the five loops of the source, which differ in the value they read, are one loop here.
- Timer.Metric.Observe: waits are kept in nanoseconds; their conversion to a floating-point number of seconds is not modelled.
- Base64.Decode: the two OpenSSL block calls are modelled to the RFC, pads decoding as zero; white space around the text and element types wider than a byte are not modelled.
- JSON text: parsing and printing by nlohmann::json is not modelled; a text carries its parse, and JSON numbers are integers.
- Protobuf encoding of a query message, and requests that fail to decode.
- Sockets, name lookup, socket options, TLS certificates and handshake contents; whether the TLS handshake succeeds is a field of the socket.
- Peers with different byte orders.
- The Prometheus ambassador, configuration, logging and exception texts.
