# Remote GL calls over shared memory: a verified model

The system lets applications call OpenGL ES, and a shared heap, in another process. Three layers rest on
one another, and the model follows them.

**The channel** (`RingBuffer`, `StreamMachine`, `StreamInvariant`, `StreamSafety`, `StreamProgress`,
`ShmStreamTransport`, `Layout`). A channel is a bounded byte stream between two processes: a ring whose
storage is mapped twice back to back, head pointers under a lock, and two mutex/condition pairs to block
on. `StreamMachine` has one writer and one reader, and a step for every region under the head lock, every
byte of an unlocked copy, every mutex operation, park and notification; spurious wake-ups are steps too.
An inductive invariant gives first-in-first-out delivery over every interleaving and any number of wraps,
the safety of the writer's stale space pointer while the reader rebases both head pointers, the stability of a
peeked window, no lost wake-up, and no deadlock; a measure bounds every run, and a run that has come to a
standstill has completed exactly when the requests could be met. `ShmStreamTransport.Channel` is the
same code in imperative form, on an array, with the peer acting between any two accesses. `Layout` is the
constructor's length check and the five mappings in wrapping 64-bit arithmetic.

**Calls** (`Serializer`, `RpcMachine`, `RpcInvariant`, `RpcSteps`, `RpcSafety`, `RpcProgress`, `RpcBounds`,
`RpcReplies`, `RpcChunks`, `RpcChannels`, `HeapManager`, `HeapClient`, `CallId`). Any number of client threads share
one transport with a sequential server: a bounded queue each way, a lock for each, and a reply found by peeking at the
call id at the head of the return queue. The machine takes the service as a parameter and learns how long a request is
only by reading it, so one set of proofs covers all dispatch tables. A handler may end in an empty read, which waits
for the next request's first byte. The theorems: replies go to the right calls, each once; the server's work is one
sequential execution that keeps each thread's order; nothing can move exactly when everything has been done but
perhaps a last request whose handler still waits like that, and from every reachable state that can be reached; a run
is no longer than what the requests asked for are worth, but for peeks that find another's call id; with one thread,
remote execution equals local execution. `RpcReplies` shows what a waiting thread has before it. `RpcChannels` puts
threads, server and the two channels of the first layer together, every byte of an unlocked copy and every park and
notification a step, and shows that every run of the whole is a run of the machine (`RpcChunks` has the pieces), so all
that is proved of the machine holds there. `HeapManager` instantiates the theorems for any number of threads allocating
and freeing; `HeapClient` has one thread's calls step by step.

**GLES** (`Wire`, `GlesWire`, `GlesFrames`, `GlesWireFormat`, `VertexArrays`, `StateTracker`, `GlesCalls`,
`GlesServer`, `GlesMeaning`, `GlesProgram`, `GlesDirect`, `GlesRemote`, `GlesStubs`, `GlesHandlers`, `GlesReplies`,
`EglConfigs`). What every modelled stub sends, what the handler in the jump table receives, and what the two mean. Reading follows the channel: a read of
no bytes still waits for one. Vertex fetch is that of section 2.8 of the OpenGL ES 2.0 specification. A draw in the
real GL sees every array enabled there, and the handlers enable arrays and never disable one, so the enabled arrays
are carried from draw to draw. The stubs and handlers are methods with the loops of the original; each is proved
against a pure account of its bytes, the two accounts are proved inverse, and the dispatch loop is proved to
execute and answer each request as the pure server does. Apart from these accounts `GlesWireFormat` says what the
bytes of each request are, field by field, `GlesDirect` what a direct call means, byte for byte of the client's
memory, and `GlesReplies` which stubs receive what of the replies. `GlesRemote` puts the layers together: the real GL, as a
deterministic step on its state, is asked for exactly what the calls mean when made directly.

The ring library is not part of this model: its contract is fixed as length `last - first`, space
`cap - (last - first)`, `give` adding to `last`, and `take` adding to `first` and subtracting `cap` from
both once `first` reaches `cap`. Locks exclude, waiting releases its mutex and parks in one step, and
a signal wakes the parked waiter if there is one.

Results that go against the promise, each with its exact condition:

- Every accepted transport length is one page, an even number of pages behind it, and possibly one byte;
  the regions tile the reserved range only without the odd byte and with at least two pages behind the
  first (`Layout.AcceptedExactly`, `Layout.LayoutExactly`). The comment at the check speaks of a
  positive number of pages; the code also lets a lone page and the odd byte through, and the model follows the code.
- An empty read waits for a byte that nobody may send (`StreamProgress.EmptyReadBlocks`), and so does an empty write
  for space; with that, standing still means completion exactly as `StreamProgress.CompletesExactly` says.
- The real GL keeps arrays enabled that the client has disabled: it is asked for what a sequence of calls means
  exactly when no draw comes while an array of an earlier draw is disabled (`GlesProgram.SameCommandsExactly`,
  `GlesProgram.DisabledStaysEnabled`). There is no stub that disables an array, and without one it never happens
  (`GlesProgram.NoDisableNoStale`).
- `glShaderSource` sends every string from the start of the first; the texts arrive exactly when all
  strings start as the first one does (`GlesMeaning.TextsExactly`, `GlesMeaning.SecondStringLost`).
- A draw is received as sent exactly when every walk gathers what is due and, with nothing behind it, the last one
  gathers something (`GlesCalls.DrawFramedExactly`, `GlesCalls.EmptyDrawWaits`); with other index types than bytes
  and shorts the attributes are not sent and the handler waits (`GlesStubs.OtherIndexTypesWait`).
- The handler computes the size of a block as a GLsizei, so a draw with 2 GB or more of packed vertices for some
  array is never received as sent (`GlesCalls.HugeDrawLost`): of 4 GB nothing is read (`VertexArrays.HugeBlockIsNothing`).
- A draw of no vertices that sends an array is executed only when a byte of the next request is there. A thread whose
  last call is such a draw leaves it unexecuted, and that is all that can be left (`GlesRemote.EveryRunEnds`).
- The stub that generates no names waits for a byte of a further reply (`GlesStubs.NamesReceivedExactly`).
- A draw sends the enabled attributes exactly when they are a prefix of the slots (`StateTracker.AnyRun`).
- The replies to `eglGetConfigs` and `eglChooseConfig` agree in length exactly under the condition in
  `EglConfigs.RepliesAgreeExactly`.
- The conversion of a call id to an int is defined, as long as the products do not wrap, exactly for process and
  thread ids below 65536 in sum (`CallId.DefinedExactly`). Then two threads of different processes can have the same
  call id, if a thread id is odd (`CallId.SharedOnlyAcrossProcesses`, `CallId.EvenThreadIdsNeverShare`); with
  wrap-around two threads of one process can (`CallId.HalfRangeApartShare`).

## Model

| member | source | states |
|---|---|---|
| RingBuffer.PokeKeepsContents | src/shm_stream_transport.c:404-427 | a store through a current or stale space pointer, anywhere in the free window, changes no byte the reader can see |
| RingBuffer.GiveContents | src/shm_stream_transport.c:236-266 | giving appends the bytes copied through such a pointer to the contents |
| RingBuffer.TakeContents | src/shm_stream_transport.c:144-174 | taking drops the oldest bytes and frees as many cells, with or without a rebase |
| RingBuffer.TakeKeepsStillLast | src/shm_stream_transport.c:144-174 | a space pointer stays usable when both head pointers are rebased under it |
| StreamInvariant.NextKeeps | src/shm_stream_transport.c:272-545 | every step of either side keeps the invariant, moves no byte out of order, and is a step of a bounded queue |
| StreamInvariant.InvSafe | src/shm_stream_transport.c:144-174 | no reachable step touches unmapped memory or gives or takes too much, so the error exits that keep the head lock are never taken |
| StreamSafety.RunKeeps | src/shm_stream_transport.c:272-545 | the invariant holds in every state of every run from the created transport |
| StreamSafety.FirstInFirstOut | src/shm_stream_transport.c:272-460 | in every reachable state, received bytes, ring contents and bytes still to give are together, in order, what the writer was asked to send |
| StreamSafety.NeverOverruns | src/shm_stream_transport.c:314-336 | takes and gives never exceed what is available, in any reachable state |
| StreamSafety.RefinesQueue | src/shm_stream_transport.c:84-266 | every step of every run appends the next bytes of the write, delivers the oldest, or changes nothing in the queue |
| StreamSafety.CopiesAreDisjoint | src/shm_stream_transport.c:394-427 | the cell of an unlocked copy is the free cell the current head names, in the mapping, and none that holds data |
| StreamSafety.WriterOnlyAdds | src/shm_stream_transport.c:394-446 | whatever the writer does, the reader sees bytes added behind the old ones and `first` unmoved |
| StreamSafety.ReaderOnlyTakes | src/shm_stream_transport.c:294-351 | whatever the reader does, the writer's space does not shrink and its space pointers stay usable |
| StreamSafety.PeekIsStable | src/shm_stream_transport.c:462-508 | a peeked window is contiguous, shows the oldest bytes, and goes on showing them under any number of writer steps |
| StreamSafety.DeliveredSoFar | src/shm_stream_transport.c:272-365 | between jobs the reader has exactly the bytes its finished jobs asked for, in order, however chunked |
| StreamSafety.OneJobDelivers | src/shm_stream_transport.c:272-545 | a read of `n`, or a peek of `n` and its take, delivers the first `n` bytes written, and a peek alone none |
| StreamSafety.PeekTakeIsRead | src/shm_stream_transport.c:462-545 | peek of n followed by take of n delivers what read of n delivers, over any two interleavings |
| StreamSafety.NoLostWakeup | src/shm_stream_transport.c:294-351 | a side parked although it could go on is owed a notification that is under way |
| StreamSafety.StandstillExactly | src/shm_stream_transport.c:272-460 | neither side can move exactly when each is out of work or rightly waiting |
| StreamSafety.NeverBothBlocked | src/shm_stream_transport.c:292-357 | a writer and a reader in mid-transfer are never both blocked when no peek exceeds the ring |
| StreamProgress.NextDecreases | src/shm_stream_transport.c:387-452 | every step but a spurious wake-up lowers the measure |
| StreamProgress.RunsAreBounded | src/shm_stream_transport.c:292-357 | transfers of any size, also beyond the ring's, take a bounded number of steps |
| StreamProgress.CompletesExactly | src/shm_stream_transport.c:272-545 | a run at a standstill has completed exactly when the reads, peeks and takes could be served in turn from the bytes written, and the writes fit in turn into the ring and what is read |
| StreamProgress.EmptyReadBlocks | src/shm_stream_transport.c:294-310 | an empty read on a channel on which nothing is written parks for good |
| ShmStreamTransport.Channel.Take | src/shm_stream_transport.c:144-174 | the head after a take, rebased if need be |
| ShmStreamTransport.Channel.Give | src/shm_stream_transport.c:236-266 | the head after a give |
| ShmStreamTransport.Channel.AwaitData | src/shm_stream_transport.c:294-310 | waiting ends with the threshold reached and nothing of the stream changed |
| ShmStreamTransport.Channel.AwaitSpace | src/shm_stream_transport.c:389-405 | waiting ends with space, with nothing written or lost |
| ShmStreamTransport.Channel.Read | src/shm_stream_transport.c:272-365 | exactly the next bytes arrive in place, across chunks and wraps, with the peer writing in between |
| ShmStreamTransport.Channel.Write | src/shm_stream_transport.c:367-460 | exactly the bytes are appended to all that was written, across chunks, with the peer taking in between |
| ShmStreamTransport.Channel.Peek | src/shm_stream_transport.c:462-508 | the offset returned shows the next bytes in one window; nothing is consumed |
| ShmStreamTransport.Channel.TakeFunc | src/shm_stream_transport.c:509-545 | exactly the peeked bytes are removed |
| Layout.AcceptedExactly | src/shm_stream_transport.c:775-779 | the length check accepts exactly one page, an even number of pages, and possibly one byte; shorter lengths are refused although the subtraction wraps |
| Layout.RegionsAre | src/shm_stream_transport.c:561-655 | for two channels of `q` pages each, where each mapping lies in the reserved range and in the file |
| Layout.LayoutExactly | src/shm_stream_transport.c:561-655 | of the accepted lengths, exactly those with whole positive channels whose reservation does not wrap give page-aligned regions tiling the reserved range |
| Layout.MirrorsAndDisjoint | src/shm_stream_transport.c:561-655 | positions a capacity apart name the same file byte; head, call and return storage never overlap |
| Layout.SameByteInEveryProcess | src/shm_stream_transport.c:665-679 | processes that map at different bases and follow the same head offset reach the same byte, whatever the offset of the transport in the shared memory |
| Serializer.FieldsRoundTrip | src/serializer.c:22-83 | any sequence of fixed and length-prefixed fields is parsed back by the mirrored receives, leaving what follows, unless it ends in an empty read with nothing behind it, which waits |
| Serializer.FieldBytes | src/serializer.c:57-83 | a field of fixed size is its bytes; one of variable size has eight bytes of length in front |
| Bytes.U32IsLittleEndian | src/client_serializer.c:58-68 | the four bytes of a word are its digits to the base 256, the lowest first |
| Bytes.U64IsLittleEndian | src/serializer.c:57-83 | and the eight of a size |
| Bytes.TwosComplement | src/client_serializer.c:58-68 | a negative int is its word less 2^32 |
| Serializer.Connection.SendVarSizeData | src/serializer.c:57-83 | the length, then the payload unless it is empty |
| Serializer.Connection.ReceiveVarSizeData | src/serializer.c:22-55 | the field is received as decoded, and no buffer is returned for an empty one |
| Serializer.Connection.SendFields | src/serializer.c:57-83 | what a sequence of sends appends is the encoding of the fields |
| Serializer.Connection.ReceiveFields | src/serializer.c:22-55 | a sequence of receives consumes exactly what decoding says |
| RpcSteps.NextKeeps | src/client_serializer.c:26-182 | every step of any client or the server keeps the protocol's invariant: lock ownership, flow of both queues, one outstanding call per client, histories |
| RpcSteps.RunKeeps | src/server_dispatcher.c:60-72 | the invariant holds in every state of every run |
| RpcChunks.ChannelStepIsRun | src/shm_stream_transport.c:272-460 | whatever a step of the call channel does to its queue, a chunk given of any of the writes that make a request or a chunk taken, whoever is sending or nobody, and whatever the server does while nothing is taken, is a run of one-byte steps of the protocol machine to the state the channel then carries |
| RpcChunks.ReturnStepIsRun | src/shm_stream_transport.c:272-545 | the same of the return channel: a chunk of a reply given, a chunk of a payload read, or the call id taken |
| RpcChunks.RepliesAreMoves | src/server_serializer.c:98-116 | a chunk of a reply given is a run of one-byte steps of the server |
| RpcChunks.ReadsAreMoves | src/client_serializer.c:184-202 | a chunk of a reply read is a run of one-byte steps of its client |
| RpcChannels.StepMoves | src/shm_stream_transport.c:272-545 | every step of a channel gives the next bytes asked to be written, or takes the oldest within what was asked to be read, or moves nothing; a take behind a peek removes all at once |
| RpcChannels.WholeRunIsRun | src/client_serializer.c:26-202 | every run of threads and server over the two channels, step by step and in any scheduling, is a run of the protocol machine, whose queues are what lies in the rings |
| RpcChannels.EachThreadGetsItsReplies | src/client_serializer.c:26-202 | over the channels each thread gets its own replies, each once and in order, from one sequential execution |
| RpcChannels.SomeWholeBegins | src/server_dispatcher.c:60-72 | whatever the threads start with, there is a whole on fresh channels that begins with it |
| RpcSteps.HeadIsCallId | src/client_serializer.c:122-128 | under the return lock, outside a reply, the head of the return queue is the call id of the oldest reply due |
| RpcSafety.BoundaryUnlessReading | src/client_serializer.c:105-160 | unless a client holds the return lock past its take, the return stream continues with a whole reply; a client that takes a call id takes its own |
| RpcSafety.ReadsItsOwnReply | src/client_heap_manager.c:72-108 | what a client reads is the reply to its own outstanding request, and it stops exactly at its end |
| RpcSafety.EachClientGetsItsReplies | src/client_serializer.c:26-182 | one sequential execution keeps each client's order, and each client's results are its own replies, each once, up to one outstanding |
| RpcSafety.RemoteEqualsLocal | src/server_dispatcher.c:60-72 | with one client, in every reachable state the server's state is that of direct execution of the requests it has run, the first ones in order; results are a prefix of those of direct execution, all of them when the client is done |
| RpcProgress.SomeoneGetsCloser | src/client_serializer.c:105-160 | in every reachable state that is not at rest some possible step brings the whole closer to it |
| RpcProgress.NeverDeadlocks | src/client_serializer.c:105-160 | in every run, nothing can move exactly when every call has returned and the transport is empty, but for a last request whose handler waits for a byte to follow; and there is none if no client asks for such a request last |
| RpcProgress.CanAlwaysFinish | src/client_heap_manager.c:72-108 | every reachable state has a continuation in which every call returns |
| RpcProgress.RestIsQuiet | src/server_dispatcher.c:60-72 | at rest everything has been executed unless a client's last request lingers |
| RpcProgress.QuietMeansServed | src/server_dispatcher.c:60-72 | then all requests were executed in each client's order and each client has all its replies |
| RpcBounds.RunsCost | src/client_serializer.c:105-160 | whatever threads, server and service do, a run has at most as many steps as the requests asked for and the replies executed so far cost, and four for every missed peek |
| RpcBounds.RunsAreBounded | src/client_serializer.c:105-160 | under any scheduling, a run takes at most as many steps as the requests asked for are worth, their replies included, and four for every peek that finds another's call id |
| RpcBounds.LoneClientNeverMisses | src/client_serializer.c:122-128 | a client on a transport of its own never finds another's call id |
| RpcReplies.NextKeepsToCome | src/server_dispatcher.c:60-72 | the replies due and those the requests begun will bring are settled: a step adds some behind, or its client's first one goes, or they stay |
| RpcReplies.OwnReplyComes | src/client_serializer.c:105-160 | in every reachable state, a client that has begun a call with a reply and not read all of it has before it whole replies to others under other call ids, the first perhaps partly read, and then its own: the payload its stub reads |
| CallId.DefinedExactly | src/client_serializer.c:24-50 | as long as nothing wraps, the pairing converts to an int exactly for ids below 65536 in sum |
| CallId.CoincideExactly | src/client_serializer.c:24-50 | then call ids coincide exactly when the id sums agree and the thread ids agree after halving |
| CallId.SharedOnlyAcrossProcesses | src/client_serializer.c:40-50 | and threads of one process do not share a call id; threads of two processes can, one of the thread ids being odd |
| CallId.EvenThreadIdsNeverShare | src/client_serializer.c:40-50 | and even thread ids never share a call id |
| CallId.HalfRangeApartShare | src/client_serializer.c:24-50 | with wrap-around, thread ids half the range apart always have the same pairing |
| HeapManager.ReceivesCall | src/server_heap_manager.c:52-128 | a handler receives the argument its stub sent |
| HeapManager.ManagerIsGood | src/server_heap_manager.c:52-128 | both handlers answer with exactly the bytes the stub waits for, on any heap |
| HeapManager.CallIsGood | src/client_heap_manager.c:72-108 | the handlers read exactly the requests the stubs send |
| HeapManager.CallsAreLinearizable | src/server_heap_manager.c:52-128 | every value a thread receives is what the allocator itself returned to that call at its place in the one order of execution, and took the heap from what it was before to what it was after, for any number of threads |
| HeapManager.CallsCanFinish | src/client_heap_manager.c:72-108 | from any point of any run all calls of all threads can still return |
| HeapManager.CallsAreBounded | src/client_heap_manager.c:72-108 | under any scheduling the calls of all threads take at most 234 steps each, and four for every peek that finds another thread's call id |
| HeapManager.SomeRunBegins | src/client_heap_manager.c:72-108 | any threads with distinct call ids and any calls begin a run to which these theorems apply |
| HeapClient.SharedTransport.StartReceiving | src/client_serializer.c:105-160 | the peek loop ends, with the lock held, its own call id taken and its own payload at the head, while others take theirs |
| HeapClient.SharedTransport.GvAlloc | src/client_heap_manager.c:72-89 | the request is sent whole, the offset returned is the one in the reply to this call, and no lock is kept |
| HeapClient.SharedTransport.GvFree | src/client_heap_manager.c:91-108 | the same for the status |
| HeapClient.ProtocolAwaits | src/client_heap_manager.c:72-108 | in any run of any threads, whenever no reply is being read, the return channel holds or will hold for a call begun what these three ask for: whole replies to other threads, then an offset or a status |
| HeapClient.SomeThreadAwaits | src/client_heap_manager.c:72-108 | any thread with a call to make can get there in two steps |
| VertexArrays.Gather | src/client_egl_gles.c:285-315 | wherever C defines the walk, the block path and the per-vertex path both send exactly the packed vertices `first` to `first + count - 1` |
| VertexArrays.TightIsContiguous | src/client_egl_gles.c:292-298 | the vertices of a tightly packed array are one block |
| VertexArrays.GatheredLengthExactly | src/client_egl_gles.c:290-315 | the client sends as many bytes as the server computes, as a GLsizei, exactly when it walks forward over some vertices of less than 2 GB, or none are due |
| VertexArrays.KnownTypesAre | src/client_egl_gles.c:196-225 | the six component types with their sizes of one, two and four bytes |
| VertexArrays.FetchIs | src/server_egl_gles.c:98-114 | each byte of each component of a vertex is the one at the address of section 2.8 |
| VertexArrays.GatheredIs | src/client_egl_gles.c:285-315 | what is sent for an array of any of the six types has every byte of every component of every vertex drawn, in order, from the client's memory |
| VertexArrays.DueSizeIs | src/server_egl_gles.c:98-104 | the size the server receives is the product cut to 32 bits |
| VertexArrays.HugeBlockIsNothing | src/server_egl_gles.c:98-104 | of 4 GB of packed vertices the server reads none |
| VertexArrays.FetchesSame | src/server_egl_gles.c:98-114 | vertex `v` of the received array, fetched with no stride, is vertex `first + v` of the client's |
| VertexArrays.GetMaxIndexub | src/client_egl_gles.c:325-341 | the largest index of a byte array, zero for none |
| VertexArrays.GetMaxIndexus | src/client_egl_gles.c:343-359 | the largest index of a short array, zero for none |
| VertexArrays.MaxIndexIsMax | src/client_egl_gles.c:325-359 | the recursive account of the loops is the maximum: reached and never exceeded |
| VertexArrays.MaxOfBytes | src/client_egl_gles.c:325-341 | for any list of indices laid out as bytes it is the maximum of the list |
| VertexArrays.MaxOfShorts | src/client_egl_gles.c:343-359 | and for any laid out as shorts, the low byte first |
| VertexArrays.ShortestPrefix | src/client_egl_gles.c:1593-1603 | a prefix of the vertices covers every index exactly when it is at least as long as the one shipped |
| VertexArrays.IndexedFetchesSame | src/server_egl_gles.c:1148-1157 | each index fetches the same bytes remotely as locally |
| StateTracker.AnyRun | src/client_state_tracker.c:740-931 | after any run of enables, disables and pointer updates the counter is the number of enabled slots, and a draw sends exactly the enabled ones if and only if they are a prefix |
| StateTracker.SentSlotsExactly | src/client_state_tracker.c:901-931 | the slots below the count are the enabled ones exactly when no enabled slot has a disabled one below |
| StateTracker.StartsCleared | src/client_state_tracker.c:40-60 | a thread starts with 32 slots, none enabled, all zero |
| StateTracker.PointerRemembered | src/client_egl_gles.c:1335-1363 | after any run of updates a slot has each of the arguments of the last pointer update made to it |
| StateTracker.SwitchRemembered | src/client_state_tracker.c:837-899 | and is enabled exactly if the last update that switched it was an enable |
| StateTracker.VertexAttribs.EnableVertexAttrib | src/client_state_tracker.c:837-867 | the slot is enabled and nothing else of any slot changes; it is counted once |
| StateTracker.VertexAttribs.DisableVertexAttrib | src/client_state_tracker.c:869-899 | the slot is disabled and nothing else of any slot changes; it is discounted once |
| StateTracker.VertexAttribs.VertexAttribPointer | src/client_egl_gles.c:1335-1363 | the slot takes each argument and names itself; whether it is enabled stays, and so does every other slot |
| StateTracker.VertexAttribs.GetEnabledVertexAttribs | src/client_state_tracker.c:901-931 | the slots a draw will send: as many as are enabled, the enabled ones if those are a prefix |
| GlesWire.ReceiveMore | src/server_egl_gles.c:53-119 | no handler of a modelled command looks past its request |
| GlesFrames.ReceivesArrays | src/server_egl_gles.c:53-119 | the attributes of a draw are received as sent, for any number of them, if something follows or the last brings data |
| GlesFrames.ReceivesShader | src/server_egl_gles.c:591-626 | shader sources are received as sent, for any count and either way of passing lengths |
| GlesFrames.ReceivesFrame | src/server_dispatcher.c:60-72 | every handler receives exactly what its stub sent, and the next read starts at the next command id; if nothing follows, the frame must not end in an empty read |
| GlesFrames.DrawReceivedExactly | src/server_egl_gles.c:98-104 | whatever follows, a draw of known attribute types is received as sent if and only if each attribute brings the data due for it and, with nothing following, the last brings some |
| GlesFrames.DispatchesAll | src/server_dispatcher.c:60-72 | any sequence of stub calls is parsed into the same sequence of commands, the last not ending in an empty read unless something follows |
| GlesFrames.WaitsForWholeFrame | src/server_dispatcher.c:60-72 | with any part of a request still to come its handler waits |
| GlesWireFormat.FormsFollowPrototypes | src/client_egl_gles.c:1266-1285 | stub and handler of each function with fixed arguments handle a word for each of its parameters, and then its string or array |
| GlesWireFormat.OtherForms | src/client_egl_gles.c:1006-1062 | the other modelled functions have requests of their own, and there are no more |
| GlesWireFormat.UnusedPlaces | src/server_egl_gles.c:910-921 | the handlers of the unused command ids, and those for the two calls that stay in the client, receive nothing, not even the call id |
| GlesWireFormat.ValuesSent | src/client_egl_gles.c:1266-1285 | command id, call id and arguments |
| GlesWireFormat.DataSent | src/client_egl_gles.c:1175-1191 | the same, a length and the data |
| GlesWireFormat.BufferSent | src/client_egl_gles.c:1710-1728 | target, size, data and usage |
| GlesWireFormat.SourcesSent | src/client_egl_gles.c:1006-1062 | shader, count, how lengths are passed, the lengths, and the strings |
| GlesWireFormat.StringSent | src/client_egl_gles.c:1033-1058 | each string is its length and its characters, one more included, taken from where the first starts |
| GlesMeaning.IntsAt | src/client_egl_gles.c:1026-1031 | the lengths are words, one behind the other |
| GlesWireFormat.AttributeSent | src/client_egl_gles.c:274-315 | the six fields of an attribute in their order, and its vertices with no buffer bound |
| GlesWireFormat.AttributesSent | src/client_egl_gles.c:272-316 | the attributes one behind the other |
| GlesWireFormat.ArraysSent | src/client_egl_gles.c:1381-1399 | the request of a draw: mode, first, count, the number of attributes, the count again, the buffer flag, the attributes |
| GlesWireFormat.ElementsSent | src/client_egl_gles.c:1575-1604 | the request of an indexed draw: mode, count, type, the indices, and one vertex more than the largest index of each attribute |
| GlesCalls.DrawFramedExactly | src/client_egl_gles.c:244-323 | whatever follows, a draw call whose walks C defines is received as sent if and only if every walk over client memory gathers what is due and, with nothing following, the last one gathers something |
| GlesCalls.HugeDrawLost | src/server_egl_gles.c:98-104 | a draw with 2 GB or more of packed vertices for some array is not received as sent, whatever follows |
| GlesCalls.HugeDrawsExist | src/client_egl_gles.c:290-315 | there is such a draw, over 268 MB of memory |
| GlesCalls.EmptyDrawWaits | src/server_egl_gles.c:98-104 | a draw of no vertices with an attribute enabled is not received until a byte of the next request is there, then exactly as sent |
| GlesServer.SomeGlIsGood | src/server_egl_gles.c:573-589 | there is a GL that returns, to every value-returning handler, as many bytes as its stub reads |
| GlesServer.RepliesAsAwaited | src/client_egl_gles.c:985-1005 | every handler replies exactly to the requests whose stub receives a reply, with as many bytes |
| GlesMeaning.AllSeenExactly | src/server_egl_gles.c:943-951 | a draw from the received arrays and those enabled before sees, array by array and element by element, what the direct draw sees if and only if every array enabled before is enabled for this one |
| GlesMeaning.AllInBufferExactly | src/server_egl_gles.c:89-116 | with a buffer bound the server's draw uses the places in it that the direct draw uses, under the same condition |
| GlesMeaning.TextsExactly | src/client_egl_gles.c:1033-1058 | a shader gets the texts it was given if and only if all of them start as the first; always for one string or none |
| GlesMeaning.SecondStringLost | src/client_egl_gles.c:1033-1035 | with the strings "A" and "B" the shader is given "A" twice |
| GlesProgram.MeaningExactly | src/server_egl_gles.c:923-964 | the real GL is asked for what a faithful call means if and only if it is no draw, or every array of an earlier draw is enabled for it |
| GlesProgram.FaithfulIsSendable | src/client_egl_gles.c:1381-1399 | every faithful call is received as it is sent, and on its own bytes alone exactly when it is no draw of no vertices with an array to send |
| GlesProgram.SameCommandsExactly | src/server_egl_gles.c:108-116 | for any sequence of faithful calls GL is asked, in order, for exactly what they mean if and only if no draw comes while an array of an earlier draw is disabled in the client |
| GlesProgram.DisabledStaysEnabled | src/server_egl_gles.c:108-116 | draw, disable the last array, draw: the second draw in GL still sees the disabled array, over memory of the first |
| GlesProgram.SuchCallsExist | src/client_state_tracker.c:869-899 | there are two such calls |
| GlesProgram.EveryKindExists | src/client_egl_gles.c:1575-1604 | and over any memory a faithful call of every kind |
| GlesProgram.NoDisableNoStale | src/client_egl_gles.c:1335-1379 | with pointer updates and enables alone, all that the stubs offer, no array is ever left behind |
| GlesDirect.PassedOn | src/client_egl_gles.c:1266-1285 | calls without client memory mean GL called with the same arguments |
| GlesDirect.TextsOf | src/client_egl_gles.c:1033-1058 | a shader is meant to get each string from its own start, as long as said or up to its NUL |
| GlesDirect.ArraysSeen | src/client_state_tracker.c:901-931 | a draw is meant to see exactly the arrays enabled in the client, in their formats |
| GlesDirect.VertexDrawn | src/client_egl_gles.c:1381-1399 | element `i` of a draw is vertex `first + i`, byte for byte of the client's memory |
| GlesDirect.IndexDrawn | src/client_egl_gles.c:1575-1604 | element `i` of an indexed draw is the vertex whose number lies at index `i`, byte for byte of the client's memory |
| GlesDirect.BufferDrawn | src/server_egl_gles.c:945-947 | with a buffer bound the elements are those from `first` on, at the strides and offsets of the pointer updates |
| GlesDirect.DrawsLastPointer | src/client_egl_gles.c:1335-1363 | a draw after any run of updates uses the arguments of the last pointer update of each slot |
| GlesDirect.ElementsOfBytes | src/client_egl_gles.c:1593-1603 | reading a list of indices laid out as bytes gives the list |
| GlesDirect.ElementsOfShorts | src/client_egl_gles.c:1593-1603 | and one laid out as shorts |
| GlesRemote.FrameArrives | src/server_egl_gles.c:98-104 | a request arrives as sent with its last byte; its handler then waits for one more byte exactly when it ends in an empty read |
| GlesRemote.RemoteIsGood | src/server_egl_gles.c:573-589 | every value-returning handler answers with what its stub waits for |
| GlesRemote.GlesConfigIsGood | src/server_dispatcher.c:60-72 | a thread's GLES calls meet all that the theorems on calls ask, and the last lingers exactly if it is a draw of no vertices with an array to send |
| GlesRemote.RemoteEqualsDirect | src/client_egl_gles.c:985-1005 | over every chunking and scheduling, when no array is disabled between draws, in every reachable state the first calls have been executed in order, GL is in the state in which making those directly leaves it, and the values returned, although void calls are pipelined, are the first of those of direct execution, all when the thread is done |
| GlesRemote.RemoteEqualsDirectOverChannels | src/client_egl_gles.c:985-1005 | the same over the two channels in shared memory, step by step |
| GlesRemote.EveryRunEnds | src/client_egl_gles.c:985-1005 | a thread's calls take no more steps than they are worth under any scheduling, and a run that can go no further has returned from all of them, with everything executed but perhaps a last draw of no vertices |
| GlesRemote.SomeRunBegins | src/server_dispatcher.c:60-72 | any faithful calls on a fresh server begin a run to which the theorem applies |
| GlesStubs.SendVertexAttribArrays | src/client_egl_gles.c:244-323 | the loop sends the attribute count, vertex count, buffer flag, and every attribute with its gathered data |
| GlesStubs.GlDrawArrays | src/client_egl_gles.c:1381-1399 | the request sent is that of the call |
| GlesStubs.GlDrawElements | src/client_egl_gles.c:1575-1604 | for byte and short indices the request is that of the call, with one vertex more than the largest index; else no attributes are sent |
| GlesStubs.OtherIndexTypesWait | src/server_egl_gles.c:1148-1157 | after such a draw the handler waits for attributes |
| GlesStubs.GlShaderSource | src/client_egl_gles.c:1007-1062 | the loop sends each string's length of bytes from the start of the first string, none for a negative count |
| GlesStubs.GlClearColor | src/client_egl_gles.c:1267-1285 | a frame its handler receives as sent |
| GlesStubs.GlGenTextures | src/client_egl_gles.c:1455-1473 | the request is framed for any number, and the names are received behind the call id |
| GlesStubs.NamesReceivedExactly | src/client_egl_gles.c:1455-1473 | the stub returns with exactly its names on its own reply if and only if it asked for some; asking for none it waits for a byte of a further reply |
| GlesStubs.GlGetShaderiv | src/client_egl_gles.c:1078-1098 | the one value is received behind the call id |
| GlesStubs.GlBindAttribLocation | src/client_egl_gles.c:1175-1191 | the name arrives with its NUL and reads as the same string |
| GlesStubs.GlBufferData | src/client_egl_gles.c:1710-1728 | a frame its handler receives as sent, also for an empty buffer |
| GlesHandlers.GlServer.ReceiveVertexAttribArrays | src/server_egl_gles.c:53-119 | the loop consumes exactly one draw's attributes; every array is left whole in a buffer of its own, specified and enabled beside those that were |
| GlesHandlers.SeesWhatWasReceived | src/server_egl_gles.c:98-116 | a draw from the server's memory through all enabled arrays sees of those received now their data, element by element, and of the others that they are still enabled |
| GlesHandlers.SeesPlaces | src/server_egl_gles.c:89-116 | with a buffer bound it sees the strides and offsets received now, and of the others that they are still enabled |
| GlesHandlers.GlServer.HandleDrawArrays | src/server_egl_gles.c:923-964 | the handler consumes exactly one draw, asks GL for what the pure server asks, frees the arrays and leaves them enabled |
| GlesHandlers.GlServer.HandleDrawElements | src/server_egl_gles.c:1132-1171 | the same with the indices |
| GlesHandlers.ServerFetchesSame | src/server_egl_gles.c:98-114 | a draw from the server's memory fetches for an attribute what the client's own array holds |
| GlesHandlers.HandleShaderSource | src/server_egl_gles.c:591-626 | the loop consumes exactly one set of sources |
| GlesHandlers.GlServer.DispatchOne | src/server_dispatcher.c:60-72 | one turn of the loop consumes exactly one request, executes it in the present state, and sends exactly its reply, headed by the call id as it came |
| GlesHandlers.GlServer.DispatchLoop | src/server_dispatcher.c:60-72 | `n` turns consume, execute and answer exactly the first `n` requests, in order |
| GlesReplies.StubsThatReceive | src/client_egl_gles.c:1001-1003 | the commands whose stubs receive a reply, and how many bytes behind the call id |
| GlesReplies.ReplyToFrame | src/server_egl_gles.c:677-678 | for the request of any stub a turn of the loop sends the call id of that request and what GL returns if the stub receives something, and else nothing, and GL is left as that call leaves it |
| GlesReplies.ReplyHasLength | src/client_egl_gles.c:1096-1097 | exactly as many bytes as the stub receives |
| GlesReplies.ShaderivIsAnswered | src/client_egl_gles.c:1096-1097 | the reply to glGetShaderiv meets what its stub asks for |
| GlesReplies.NamesAreAnswered | src/client_egl_gles.c:1455-1473 | so does the reply to glGenTextures for some names |
| GlesReplies.ServesInOrder | src/server_dispatcher.c:60-72 | the loop serves a thread's requests one after the other, each in the state the last one left, with its reply |
| EglConfigs.RepliesAgreeExactly | src/client_egl_gles.c:594-598 | the stub receives the whole reply if and only if it wants no configs, offers room for some, or there are none; else it waits |

## Left out

- The ring library, locks, read-write locks, condition variables and mappings themselves: their contracts are assumed, and their failure returns are absent.
- The race of a first attachment with the creation of the transport: the transport exists before clients attach.
- CallId.CoincideExactly: nothing is said of ids of 2^32 or more in sum, whose products wrap, but by CallId.HalfRangeApartShare; the conversion to an int is then defined by chance at most. The protocol takes distinct call ids as given.
- CallId.SharedOnlyAcrossProcesses: the same.
- CallId.EvenThreadIdsNeverShare: the same.
- HeapClient.SharedTransport.StartReceiving: takes as given what HeapClient.ProtocolAwaits proves of the protocol, and that other threads take whole replies, which is RpcReplies.NextKeepsToCome and RpcSafety.ReadsItsOwnReply.
- HeapClient.SharedTransport.GvAlloc: the same.
- HeapClient.SharedTransport.GvFree: the same.
- VertexArrays.Gather: only walks that C defines: the size of a vertex is no negative number and below 2 GB, the attribute type is known, no int expression overflows, and no negative count goes over a negative stride, where the walk would not end.
- VertexArrays.GatheredLengthExactly: the size of a vertex is below 2 GB and not negative; GL refuses such sizes.
- GlesFrames.DrawReceivedExactly: only known attribute types; of others the original leaves the size uninitialised.
- GlesCalls.DrawFramedExactly: only draws whose walks C defines, as for VertexArrays.Gather.
- GlesProgram.FaithfulIsSendable: the same, with the condition of GlesCalls.DrawFramedExactly, which bounds the packed data.
- GlesStubs.SendVertexAttribArrays: only walks that C defines, as for VertexArrays.Gather.
- GlesStubs.GlDrawArrays: the same.
- GlesStubs.GlShaderSource: does not model an array of lengths with a negative count, whose size becomes huge, nor a string length of 2147483647, whose successor overflows.
- GlesStubs.GlDrawElements: only walks that C defines; does not model a negative count, whose index length becomes a huge size.
- GlesProgram.MeaningExactly: for calls that ask for some names if for any (a stub that asks for none on a transport of its own never returns, GlesStubs.NamesReceivedExactly), and whose packed data are below 2 GB for each array; not for indexed draws with a buffer bound, whose handler frees addresses it did not allocate. The contents of buffers are GL's own.
- RpcChannels.WholeRunIsRun: a take is asked for together with its peek, made once more, and a thread may compare a call id as soon as its four bytes are there; both only add runs.
- GlesRemote.RemoteEqualsDirect: the same calls; the real GL is any deterministic step on its state that returns values of the declared types.
- GlesWire.ReceiveMore: EGL commands and info logs are outside; nothing is said of what their handlers receive.
- StateTracker.VertexAttribs.EnableVertexAttrib: does not model an index of 32 or more, which the original does not check and which is outside the array.
- StateTracker.VertexAttribs.DisableVertexAttrib: the same.
- StateTracker.VertexAttribs.VertexAttribPointer: the same.
- GlesHandlers.GlServer.HandleDrawArrays: what freed memory holds is left open, and so is what a draw finds in an array of an earlier draw.
- GlesHandlers.GlServer.HandleDrawElements: with a buffer bound the original frees addresses it did not allocate; that is not modelled.
- `eglInitialize`, whose handler swaps major and minor, and the info logs, one of which reads the wrong object.
- Texture upload sizes and pixel alignment, the deletion and replacement of attributes past the counter, contexts and the state maps, the remaining EGL calls, and the janitor, whose calls have the shape of the heap manager's.
- The heap itself (any deterministic allocator), process start and stop, signals and environment.
