# gssproxy in Dafny

A model of the parts of gssproxy whose correctness is not evident from reading one
function: the daemon's worker pool and the ownership of its connections, the framing and
the XDR/RPC layers shared by daemon and clients, the sealing of credentials, the Rust
client's transport, the interposer's OID registry, the choice of a service for a
connection, the listeners across reloads and the credential store. `dafny verify
dfyconfig.toml` checks it.

Shared state that several threads touch is a step machine: each step is one region that
runs without interference, and a run is any sequence of enabled steps. Code that updates
fields, buffers or lists in place is a class or a method with loops, proved against a
specification function or against the step of the machine it implements. Outcomes of
system calls, allocations, the cipher and the executors of the fifteen procedures are
parameters, so every theorem holds for all of them.

| file | what it models |
|---|---|
| `WorkerPool`, `PoolGuarantees` | the dispatcher/worker protocol, its invariant, and what follows over every run |
| `PoolLists` | the free and busy lists on prev/next pointers, refining the protocol |
| `ConnOwnership` | connections passing between read buffers, queries and write buffers |
| `Framing` | record marking (section 10 of RFC 1831): reassembly and emission in pieces |
| `Wire`, `Xdr`, `XdrMem` | XDR (RFC 4506) over a language of types, what decodes and to which bytes values encode, and encoding into a memory buffer |
| `Gssx`, `RustTypes` | the gssx types as the C and as the Rust code have them |
| `Rpc`, `RpcCall`, `RpcBytes` | the RPC envelope (section 8 of RFC 1831), the daemon's and the C client's halves of a call, and both in terms of the bytes |
| `ClientWire`, `ClientExchange` | the C client's loops on its socket, its retries, the call as a whole and runs of calls |
| `Sealing` | the padding of sealed credentials around a block cipher (section 5.3 of RFC 3961) |
| `ClientTransport`, `ClientPrediction` | the Rust client's connection, identity check and retries, and its outcome against misbehaving daemons |
| `OidRegistry`, `OidPublication` | the special-OID list and its lock-free publication |
| `ServiceSelection`, `ConfigLoad`, `Reload`, `CredStore` | service matching and its validator, loading and reloading, credential stores |

Some properties one would like turn out to hold only on part of the inputs. For each of
them there is an input on which the code fails and a statement of when it does not, an
if-and-only-if unless said otherwise:

- a pool at rest has answered everything exactly when no write to the wake-up pipe failed
  (`AnsweredIffNoLostWakeup`, `LostWakeupStrandsQuery`);
- a reply is on the wire as exactly its frame when the first write that the socket accepts
  does not take just the four header bytes (`EmissionExact`, `HeaderSentTwice`);
- a socket that the C client keeps is in step with the daemon when the events of the round
  that decides the exchange let no byte of the request out, or all of it and one whole message
  in (`SendRecvLoop`, `ReadErrorLeavesReply`); otherwise later calls pay (`BehindForGood`);
- a shutdown closes the pool under every schedule when no worker, at the moment the flag is
  set, is past its test of the flag and not yet waiting (`ShutdownClosesIff`,
  `ShutdownCanHang`);
- every connection structure is held or freed when no accept was interrupted
  (`HeldUnlessInterrupted`, where any interrupted accept is such an input);
- a sealed credential unseals to itself when, on a block boundary, it does not itself end
  like padding and, elsewhere, it has two bytes or more and the boundary is within the
  fifteen lengths probed (`SealRoundTrip`, `BoundaryMissed`, `PlaintextStripped`);
- an accepted configuration prefers the service for the peer's uid when no service shadows
  a later one whose socket the validator takes for a different one (`AcceptanceDecides`,
  `HiddenShadow`);
- a template whose only percent signs are a doubled one expands right when that is in the
  middle of it, or by accident at its front (`LoneDoubledExact`, `DoubledAlone`); for other
  templates being in the middle is enough but not necessary (`BalancedIsRight`,
  `RightByAccident`).

`ReloadExact` and `DuplicateNamesLeak` are about init_sockets taken alone, which conserves the
listeners when no two old services would hand theirs to the same new one. The daemon never
gives it such a configuration: what is read of a service depends on its section's name only,
and the validator refuses two services that are alike (`NamesDistinct`), so that the listeners
are always conserved (`ConfigLoad.AlwaysConserved`).

Every lemma is marked `{:induction false}`: proofs by induction are written out.

## Model

| member | source | states |
|---|---|---|
| WorkerPool.InvKept | src/gp_workers.c:216-423 | Every step of the dispatcher and of every worker keeps the invariant: replies against wake-ups, free threads against wake-ups while queries wait, each thread on one list, slots against phases |
| WorkerPool.WakeupKeptByWorker | src/gp_workers.c:360-423 | Publishing, signalling, sleeping and waking workers keep replies = bytes in the pipe + workers about to write + lost bytes (+1 while the dispatcher pops) |
| WorkerPool.WakeupKeptByDispatcher | src/gp_workers.c:148-355 | So do assigning, parking, popping and draining, with the bound on free threads while a query waits |
| WorkerPool.TotalKeptByWorker | src/gp_workers.c:372-406 | A worker only moves queries between slot, hand and reply list, whatever weight a query is given |
| WorkerPool.TotalKeptByDispatcher | src/gp_workers.c:216-355 | The dispatcher only moves queries between its hand, the wait list, slots and the reply list, apart from one accepted or handed back |
| WorkerPool.RosterKept | src/gp_workers.c:148-413 | Threads move between the free list, the busy list, the joining dispatcher and the joined ones, none lost or doubled |
| WorkerPool.WorkerKeptByWorker | src/gp_workers.c:367-423 | Worker steps keep every thread's list, slot and phase consistent |
| WorkerPool.WorkerKeptByDispatcher | src/gp_workers.c:148-355 | Dispatcher steps do too |
| WorkerPool.InitInv | src/gp_workers.c:95-119 | The pool as initialised satisfies the invariant |
| WorkerPool.ReachableInv | src/gp_workers.c:216-423 | Every state of every run satisfies it, with all threads still there |
| PoolGuarantees.NoStrandedWork | src/gp_workers.c:216-423 | Without failed pipe writes, replies equal pending wake-ups, a wake-up always finds a reply, and a query waiting at an idle dispatcher has a busy worker or a pending wake-up; free threads never exceed pending wake-ups then |
| PoolGuarantees.RunConserves | src/gp_workers.c:216-423 | Along every run, content plus handed back minus accepted is constant for every weighing of queries |
| PoolGuarantees.EachQueryInOnePlace | src/gp_workers.c:223-408 | An accepted query is in exactly one place: wait list, reply list, dispatcher's hand, a slot, a worker's hand, or handed back; others are nowhere |
| PoolGuarantees.AssignmentNeverOverwrites | src/gp_workers.c:223-240 | Free and busy lists (and joined threads) partition the threads, a free thread's slot is empty, and a hand-over finds its slot empty |
| PoolGuarantees.LastParkedFirst | src/gp_workers.c:245-345 | The wait list is a stack: unless the list is touched in between, the query parked last is the next to be assigned, and the rest of the list is as before |
| PoolGuarantees.LastPublishedFirst | src/gp_workers.c:299-406 | So is the reply list: the query published last is the next to be handed back, unless another one is published in between |
| PoolGuarantees.LastFreedFirst | src/gp_workers.c:216-413 | And the free list: the thread that became free last is the next to get a query, unless another one becomes free in between |
| PoolGuarantees.ShutdownFreezesLists | src/gp_workers.c:408-413 | Once shutdown is set no run of worker steps changes either list |
| PoolGuarantees.ShutdownShrinksLists | src/gp_workers.c:148-205 | From then on the lists only lose elements, at their heads |
| PoolGuarantees.FreeJoinedFirst | src/gp_workers.c:169-205 | Free threads are joined before busy ones |
| PoolGuarantees.NoStepAfterFree | src/gp_workers.c:169-205 | A joined thread takes no step, and no thread does after the pool is closed |
| PoolGuarantees.ShutdownClosesIff | src/gp_workers.c:148-381 | A shutdown closes the pool under every schedule if and only if no worker, when the flag is set, is past its test of the flag with an empty slot and not yet waiting |
| PoolGuarantees.ShutdownEnds | src/gp_workers.c:148-205 | With no internal step left after a shutdown began, the pool is closed, or else the dispatcher joins a thread that is asleep and was not woken |
| PoolGuarantees.ShutdownCanHang | src/gp_workers.c:367-381 | A worker past its shutdown test but not yet waiting misses the signal: a reachable state in which the join does not end by itself |
| PoolGuarantees.InternalRunsEnd | src/gp_workers.c:148-423 | Under every schedule, shutting down or not, a run of internal steps is no longer than the rank of its first state |
| PoolGuarantees.QuiescentIffStuck | src/gp_workers.c:289-423 | The pool has no internal step left exactly when it is at rest: no deadlock |
| PoolGuarantees.AnsweredIffNoLostWakeup | src/gp_workers.c:216-423 | At rest, everything accepted has been handed back exactly when no wake-up write failed |
| PoolGuarantees.EveryQueryAnswered | src/gp_workers.c:216-423 | Whatever the schedule, after at most Rank internal steps every accepted query has been handed back exactly once |
| PoolGuarantees.LostWakeupStrandsQuery | src/gp_workers.c:418-422 | One failed pipe write leaves a reply and a waiting query behind in a pool at rest |
| PoolLists.ListAdd | src/gp_common.h:14-21 | LIST_ADD pushes at the head of a doubly linked, duplicate-free list |
| PoolLists.ListDel | src/gp_common.h:24-36 | LIST_DEL removes the node from anywhere, keeps the rest linked in order and unlinks the node |
| PoolLists.Pool.constructor | src/gp_workers.c:95-119 | Pushing the threads one by one gives the protocol's initial state |
| PoolLists.Pool.MoveToBusy | src/gp_workers.c:224-228 | Free to busy moves the head, keeping both lists linked and disjoint |
| PoolLists.Pool.MoveToFree | src/gp_workers.c:410-413 | Busy to free moves any node, keeping both lists linked and disjoint |
| PoolLists.Pool.PickThread | src/gp_workers.c:216-231 | The dispatcher's locked section does, on the pointers, the protocol's step |
| PoolLists.Pool.HandOver | src/gp_workers.c:233-244 | The hand-over does the protocol's step |
| PoolLists.Pool.TakeQuery | src/gp_workers.c:372-388 | Looking into the slot does the protocol's step |
| PoolLists.Pool.Publish | src/gp_workers.c:399-416 | In every state that satisfies the protocol's invariant, the worker's locked section does the protocol's step, at shutdown or not |
| PoolLists.Pool.BusyThread | src/gp_workers.c:408-413 | In every protocol state a worker that handles a query is on the busy list, so its LIST_DEL is legal |
| PoolLists.Pool.PickToJoin | src/gp_workers.c:169-205 | Draining takes threads off the pointers as the protocol does |
| ConnOwnership.StepMoves | src/gp_socket.c:383-648 | A step moves its connection, and only it: to the next of read buffer, query, write buffer and read buffer again if it does not fail, to the freed ones if it does |
| ConnOwnership.StepConserves | src/gp_socket.c:383-648 | So every step, failure paths included, conserves the holders of accepted connections |
| ConnOwnership.FreedByFailures | src/gp_socket.c:383-648 | Along every run the connections freed are as many as the steps that fail; none is freed exactly when none fails |
| ConnOwnership.SingleOwner | src/gp_socket.c:383-648 | Over every run an accepted connection is held exactly once among read buffers, queries, write buffers and freed connections |
| ConnOwnership.HeldUnlessInterrupted | src/gp_socket.c:651-722 | Over a run, every connection structure allocated is held once or freed if and only if no accept was interrupted |
| ConnOwnership.NoUseAfterFree | src/gp_socket.c:122-134 | gp_conn_free runs at most once on a connection and no buffer or query has it afterwards |
| ConnOwnership.OneRequestOutstanding | src/gp_socket.c:499-568 | A connection has at most one request in the pool, and none while it is being read or written |
| Framing.ReassemblySound | src/gp_socket.c:413-513 | However reads are split, what is handed over is exactly the declared body, 0 < size <= MAX_RPC_SIZE, and exactly its frame was consumed |
| Framing.ReassemblyComplete | src/gp_socket.c:413-513 | On the frame of a legal body, with any waiting before the header and between the pieces, the body is handed over exactly when the reads have offered to take it, never before |
| Framing.ReadStepExact | src/gp_socket.c:413-529 | For every buffer, input and event: exactly when the connection is freed (read error, short header, bad length word, no memory, end of stream within a body, failed hand-over) and exactly when a request is handed over |
| Framing.HangUpCloses | src/gp_socket.c:439-445 | When the client hangs up between requests, the connection is freed exactly by the first event that is not a false alarm |
| Framing.HangUpWithinCloses | src/gp_socket.c:486-495 | The same when it hangs up within a request |
| Framing.ReadBuffer.SocketRead | src/gp_socket.c:413-529 | The read handler on its buffer does the step that Framing.ReadStepExact and the reassembly theorems describe, errors and end of stream included |
| Framing.ReadBuffer.ReceiveBody | src/gp_socket.c:467-529 | So does its body part |
| Framing.EmissionGeneral | src/gp_socket.c:570-648 | A completed run of partial writes puts the frame on the wire, preceded by one more header for every write that took exactly the header |
| Framing.ResendsWhenFour | src/gp_socket.c:587-631 | In a completed reply the header goes out again exactly when the first accepted write took four bytes |
| Framing.EmissionExact | src/gp_socket.c:587-631 | Exactly the frame if and only if the first write that the socket accepts does not take just the four header bytes |
| Framing.HeaderSentTwice | src/gp_socket.c:629-631 | A first write of four bytes puts the header on the wire twice |
| Framing.HeaderAgain | src/gp_socket.c:587-631 | After a first accepted write of four bytes, what follows the header on the wire is the header again, complete or not |
| Framing.EmissionReassembled | src/gp_socket.c:426-648 | Reassembly undoes emission under two independent chunkings |
| Framing.WriteExact | src/gp_socket.c:570-648 | Over any run of writes: exactly when a reply is completed, and exactly when it is given up |
| Framing.WriteBuffer.SocketWrite | src/gp_socket.c:570-648 | The write handler on its buffer does the step that Framing.WriteExact and the emission theorems describe |
| Wire.WordOrder | src/gp_socket.c:587-590 | Words are ordered as their four bytes are, so the most significant byte comes first |
| Xdr.RoundTrip | rpcgen/gss_proxy_xdr.c:9-769 | For every type, value and trailing bytes, decoding an encoding gives the value back and leaves exactly the trailing bytes |
| Xdr.DecExact | rpcgen/gss_proxy_xdr.c:9-769 | For every type, input, value and rest: decoding gives the value and the rest if and only if what precedes the rest is the value's encoding, padding bytes aside |
| Xdr.HyperRoundTrip | rpcgen/gp_xdr.c:5-29 | The high/low word split of 64-bit numbers is undone |
| Xdr.HyperOrder | rpcgen/gp_xdr.c:5-29 | 64-bit numbers are ordered as their eight bytes are |
| Xdr.PrimitiveBytes | rpcgen/gp_xdr.c:5-29 | The bytes of an unsigned, an enum, a bool, a hyper and an opaque, in literals |
| Xdr.TaggedBytes | rpcgen/gss_proxy_xdr.c:268-290 | The bytes of optional data and of a union |
| Xdr.StructBytes | rpcgen/gss_proxy_xdr.c:75-85 | The bytes of a structure: its fields' one after the other |
| Xdr.ArrayBytes | rpcgen/gss_proxy_xdr.c:64-73 | The bytes of an array: its elements' behind their number |
| Xdr.Injective | rpcgen/gss_proxy_xdr.c:9-769 | Encodings are injective and none is a proper prefix of another |
| Xdr.Aligned | rpcgen/gss_proxy_xdr.c:9-769 | Encodings are whole 4-byte units |
| Xdr.DecSound | rpcgen/gss_proxy_xdr.c:9-769 | From any bytes, what decodes is well formed and took as many bytes as it encodes to |
| XdrMem.Stream.Encode | rpcgen/gss_proxy_xdr.c:9-769 | Into a buffer of any capacity encoding succeeds exactly when the encoding fits, and then appends exactly it |
| XdrMem.Stream.PutHyper | rpcgen/gp_xdr.c:10-16 | 64-bit numbers as high and low word |
| Gssx.TablesAgree | src/gp_rpc_process.c:14-127 | The daemon's and the client's dispatch tables agree on every procedure, each row at its own number |
| RustTypes.TypesAgree | rust/gssproxy-proto/src/proc.rs:32-918 | For every procedure the Rust code and the C code put the same types on the wire, in both directions |
| Rpc.PutCallHeader | rpcgen/gp_rpc_xdr.c:127-154 | Inline or word by word, encoding the call header succeeds exactly when it fits and appends the same bytes |
| Rpc.PutInline | rpcgen/gp_rpc_xdr.c:144-149 | The inline branch appends exactly the four words |
| Rpc.PutWords | rpcgen/gp_rpc_xdr.c:133-142 | The word-by-word branch succeeds exactly when sixteen bytes are left and appends the same |
| Rpc.FastDecodeAgrees | rpcgen/gp_rpc_xdr.c:155-177 | For every input the inline decoding gives the same fields and the same position as the plain one |
| Rpc.PutMsg | rpcgen/gp_rpc_xdr.c:215-243 | A whole message is encoded exactly when it fits, to its plain encoding |
| Rpc.DecodeMsgAgrees | rpcgen/gp_rpc_xdr.c:215-243 | A whole message decodes as its plain description says, for every input |
| RpcBytes.HeaderDecodes | rpcgen/gp_rpc_xdr.c:9-243 | Which bytes are an RPC header, call or reply, word by word, and where it ends |
| RpcBytes.CallDecodes | rpcgen/gp_rpc_xdr.c:127-243 | The fields of a call are the words at their offsets |
| RpcBytes.RequestBytes | src/client/gpm_common.c:694-727 | The bytes of every request |
| RpcBytes.AcceptedBytes | src/gp_rpc_process.c:218-280 | The bytes of every accepted reply's header |
| RpcBytes.DeniedBytes | src/gp_rpc_process.c:218-280 | The bytes of every denied reply |
| RpcCall.JudgeHeader | src/gp_rpc_process.c:129-190 | Which header gets which status: each accept and reject status goes to exactly the headers it is meant for, the earlier tests taking precedence, and exactly the proper calls to procedures 1..15 pass; at which offsets the words are is RpcBytes.CallDecodes |
| RpcCall.DecodeCallHeader | src/gp_rpc_process.c:129-190 | The return, accept and reject codes stand for that verdict |
| RpcCall.DecodeCall | src/gp_rpc_process.c:192-216 | EFAULT exactly when the header does not decode; otherwise the caller's xid and the codes of the request's verdict, arguments included |
| RpcCall.EncodeReplyHeader | src/gp_rpc_process.c:218-280 | The buffer holds exactly the header for the codes, whatever it held before |
| RpcCall.EncodeReply | src/gp_rpc_process.c:282-306 | Success header and whole result if they fit, exactly a SYSTEM_ERR header if not |
| RpcCall.ProcessCall | src/gp_rpc_process.c:356-407 | The reply is the one the request deserves, for every input and every executor |
| RpcCall.ReplyTotality | src/gp_rpc_process.c:129-344 | No reply exactly when the header does not decode; otherwise a decodable REPLY with the caller's xid and the deserved status, with the whole result or with nothing behind it |
| RpcCall.AnswerStarts | src/gp_rpc_process.c:218-280 | Every reply, error replies included, starts with the xid of its request |
| RpcBytes.AnswerToOthers | src/gp_rpc_process.c:129-190 | Bytes that are no header get no answer, and a reply gets status 4 |
| RpcBytes.AnswerToMisfits | src/gp_rpc_process.c:145-181 | The words at offsets 8 to 24 of a call decide its answer: another RPC version, program, version or procedure, or a credential flavor other than 0, each gets exactly the bytes of its status |
| RpcBytes.AnswerToCalls | src/gp_rpc_process.c:192-407 | For any other call: status 4 if its argument does not decode, 5 if the executor fails or its result does not fit, else a success header and the result |
| RpcCall.EncodeRequest | src/client/gpm_common.c:673-727 | The request is header and argument if they fit MAX_RPC_SIZE, an error otherwise |
| RpcCall.DecodeReply | src/client/gpm_common.c:751-776 | A result exactly from an accepted success reply to this xid whose result decodes |
| RpcCall.RequestUnderstood | src/client/gpm_common.c:694-727 | The daemon reads a client's request as exactly that procedure and argument |
| RpcCall.SuccessUnderstood | src/client/gpm_common.c:751-776 | The client reads a success reply as exactly its result |
| RpcCall.ResultWords | src/client/gpm_common.c:751-776 | A result comes only from bytes that start with the call's xid and the reply type |
| RpcBytes.ResultExact | src/client/gpm_common.c:751-776 | For every byte string the client's result is what decodes behind an accepted success header for its xid, and nothing else |
| RpcCall.EndToEnd | src/client/gpm_common.c:673-776 | For every procedure, argument that fits and executor, the executor runs on exactly that argument and the client gets exactly its result when the reply fits, an error otherwise |
| ClientWire.SendHeader | src/client/gpm_common.c:389-420 | What sending the length word returns, when a byte stays on the socket and when the socket is lost, in terms of the events |
| ClientWire.SendBuffer | src/client/gpm_common.c:374-443 | What it returns, success exactly when the events allow it; then the socket carries exactly the frame, otherwise less; when a byte goes out at all; and a socket given up carries less than a header |
| ClientWire.SendWaitFails | src/client/gpm_common.c:390-396 | Sending returns the error of a wait that fails before the length word is out |
| ClientWire.SendBodyFails | src/client/gpm_common.c:421-436 | Sending returns the first error before the body is out |
| ClientWire.RecvBuffer | src/client/gpm_common.c:446-517 | What it returns, success exactly when the stream holds a message, there is memory for it and the events allow reading it; and exactly when the stream is left at the end of a message |
| ClientWire.RecvWaitFails | src/client/gpm_common.c:454-459 | Receiving returns the error of a wait that fails before the length word is in |
| ClientWire.RecvBodyFails | src/client/gpm_common.c:484-504 | Receiving returns the first error before the whole message is in |
| ClientExchange.OneRound | src/client/gpm_common.c:550-583 | One round leaves the socket in step exactly when its events let nothing out, or the whole request out and one whole message in |
| ClientExchange.SendRecvLoop | src/client/gpm_common.c:541-585 | What the exchange returns, and that a socket kept afterwards is in step exactly when all rounds timed out, a socket could not be reopened, or the events of the first round that did not time out let nothing out or whole messages both ways |
| ClientExchange.ReadErrorLeavesReply | src/client/gpm_common.c:578-583 | A read error after the request went out leaves the kept socket out of step, its reply unread |
| ClientWire.ReceivedFrame | src/client/gpm_common.c:446-517 | From a frame the client finds exactly its body and leaves what follows |
| ClientExchange.PartNeverRuns | src/gp_socket.c:413-513 | Less than the whole frame on a socket is never handed to the workers |
| ClientExchange.GarbledRefused | src/client/gpm_common.c:751-776 | A reply whose header went out twice, complete or not, gives the client no result |
| ClientExchange.CallOverTheWire | src/client/gpm_common.c:673-776 | The client's frame, read by the daemon in any pieces, and the reply, written in any pieces of which the first is not just the header, make the call return what the executor returned |
| ClientExchange.MakeCall | src/client/gpm_common.c:673-776 | The call with its retries, the client's loops and the daemon's handlers: the executor's result exactly when the exchange succeeds and the daemon's first accepted write is not just the header, an error otherwise; the executor has run once for every attempt whose request went out whole and was read whole, at most three times |
| ClientExchange.ServedAnswers | src/client/gpm_common.c:541-585 | A call whose first attempts time out and whose next one both sides' events let through gets its answer |
| ClientExchange.LateRepliesRunThrice | src/client/gpm_common.c:541-585 | Replies that come too late: the executor runs three times for a call that fails |
| ClientExchange.NextXid | src/client/gpm_common.c:520-532 | The xids of consecutive calls count up modulo 2^31, also where the counter wraps |
| ClientExchange.CallsOn | src/client/gpm_common.c:673-776 | In any run of calls on one socket that send their request and read a message, each gets its own result if the socket was in step, and none ever gets a result if a stale reply was unread |
| ClientExchange.BehindForGood | src/client/gpm_common.c:541-776 | After a read error on an untouched reply, the call and every later one on the kept socket fail |
| Sealing.Probe | src/gp_export.c:214-262 | The probing loop finds the specified pad, and the length it asked for is the padded plaintext's |
| Sealing.Seal | src/gp_export.c:197-310 | The blob is the encryption of the padded plaintext, the allocated buffer has exactly its length, and there is no blob exactly when the plaintext is too long or something on the way fails |
| Sealing.PadIsLeast | src/gp_export.c:228-257 | When the probe reaches the boundary the pad is the least of at least 8 that aligns the length |
| Sealing.Depad | src/gp_export.c:341-355 | The stripping loop removes the pad exactly from pad-shaped text |
| Sealing.DepadExact | src/gp_export.c:341-355 | Stripping gives r exactly from r followed by n bytes of value n, n at least 8 and r at least two bytes long; any other text stays as it is |
| Sealing.Unseal | rust/gssapi-sys/src/seal.rs:206-252 | Decryption followed by stripping |
| Sealing.SealRoundTrip | src/gp_export.c:221-354 | Exactly when unseal undoes seal, for every block size and plaintext |
| Sealing.SmallBlocks | rust/gssapi-sys/src/seal.rs:129-249 | Up to block size 15, with two bytes or more: always off a boundary, on one exactly when not pad-shaped |
| Sealing.BlockSixteen | src/gp_export.c:241-257 | At block size 16, off a boundary: exactly when (len + 8) mod 16 is not 1 |
| Sealing.BoundaryMissed | src/gp_export.c:243-257 | Nine bytes at block size 16 do not come back |
| Sealing.PlaintextStripped | src/gp_export.c:341-354 | An aligned plaintext that ends like padding does not come back |
| ClientTransport.ClientConn.NextXid | rust/gssproxy-client/src/lib.rs:181-185 | The xid counter wraps at 2^32 |
| ClientTransport.ClientConn.RefreshIdentity | rust/gssproxy-client/src/lib.rs:189-200 | The socket is dropped exactly when pid, euid or egid changed |
| ClientTransport.ClientConn.Connect | rust/gssproxy-client/src/lib.rs:203-215 | A new socket and its owner are recorded, or nothing changes |
| ClientTransport.ClientConn.TryTransact | rust/gssproxy-client/src/lib.rs:223-237 | One attempt returns the specified outcome and leaves the specified bytes on the socket |
| ClientTransport.ClientConn.DoTransact | rust/gssproxy-client/src/lib.rs:241-267 | The retry loop does the specified attempts |
| ClientTransport.ClientConn.MakeCall | rust/gssproxy-client/src/lib.rs:290-326 | A call checks the identity, takes one xid, transacts and interprets the reply |
| ClientTransport.StepKeepsSync | rust/gssproxy-client/src/lib.rs:189-308 | A call keeps the client synchronous |
| ClientTransport.AlwaysSynchronous | rust/gssproxy-client/src/lib.rs:189-308 | After any calls by any identities against any daemon, a kept socket has had every request written whole and its framed reply read whole, and no socket was written to under another identity than its opener's |
| ClientTransport.RetriedKinds | rust/gssproxy-client/src/lib.rs:241-282 | After a failed first attempt there is another exactly for the six kinds of error |
| ClientTransport.TransactDecided | rust/gssproxy-client/src/lib.rs:241-267 | Whatever the attempts meet, failed connections included, a transaction ends with the first that decides it, or with the third |
| ClientTransport.ThirdCounts | rust/gssproxy-client/src/lib.rs:241-267 | After two retryable failures the third attempt counts |
| ClientTransport.OversizeTouchesNothing | rust/gssproxy-client/src/lib.rs:241-246 | A request over 2^20 bytes touches no socket |
| ClientTransport.RetryRefinement | rust/gssproxy-client/src/lib.rs:241-282 | When connecting succeeds the outcome is the first that is not retryable among at most three, else the third; every attempt sends the same frame, every retry on a new socket |
| ClientTransport.CallRefinement | rust/gssproxy-client/src/lib.rs:290-326 | make_call ends with the first outcome among at most three that is not retryable, interpreted for its xid if it is a reply, else with the last I/O error |
| ClientTransport.SocketsUsed | rust/gssproxy-client/src/lib.rs:189-267 | A call by the process that opened the kept socket starts on it, any other on a new one; and how many are opened |
| ClientTransport.XidsCountUp | rust/gssproxy-client/src/lib.rs:181-185 | After n calls the counter is the seed plus n modulo 2^32 |
| ClientPrediction.FramedPredicted | rust/gssproxy-client/src/lib.rs:309-326 | What make_call makes of each reply that is framed right, well-behaved or not, is what the tests' classification says |
| ClientPrediction.AttemptPredicted | rust/gssproxy-client/src/lib.rs:866-880 | An attempt is retried exactly when its behaviour has no final outcome, and otherwise ends with it |
| ClientPrediction.CallPredicted | rust/gssproxy-client/src/lib.rs:826-890 | For every three behaviours of the daemon make_call ends as the tests' simulation predicts, with the very result the daemon sent if it predicts success |
| ClientPrediction.ClientsAgree | rust/gssproxy-client/src/lib.rs:309-326 | The two clients agree on every byte string: the Rust client has a result exactly when the C client has it and the verifier's flavor is one that the Rust code knows |
| OidRegistry.BaseArcs | src/mechglue/gss_plugin.c:70-75 | The interposer's OID is 2.16.840.1.113730.3.8.15.1 |
| OidRegistry.Registry.Add | src/mechglue/gss_plugin.c:212-227 | Adding any item appends it to the linked list |
| OidRegistry.Registry.NewSpecial | src/mechglue/gss_plugin.c:229-257 | A new item with special = base ++ regular is appended, for any OID; for one without an item the registry stays valid |
| OidRegistry.Registry.SpecialMech | src/mechglue/gss_plugin.c:259-286 | Special OIDs are returned as they are, no OID gives the first item, others give their item, added if missing; items are never removed |
| OidRegistry.Registry.UnspecialMech | src/mechglue/gss_plugin.c:288-306 | The regular OID of a registered special one, anything else unchanged |
| OidRegistry.Registry.AvailableMechs | src/mechglue/gss_plugin.c:308-360 | The set offered and the registrations made, element by element |
| OidRegistry.Registry.InitAvailableMechs | src/mechglue/gss_plugin.c:362-382 | The same registrations |
| OidRegistry.Registry.OneItem | src/mechglue/gss_plugin.c:229-286 | An OID, regular or special, has one item, whichever call returned it and whenever |
| OidRegistry.Registry.SpecialForever | src/mechglue/gss_plugin.c:259-286 | Whatever operations happen between, special returns the same pointer for an OID that is not special |
| OidRegistry.UnspecialUndoes | src/mechglue/gss_plugin.c:259-306 | Whatever happens before and between, unspecial undoes special on every OID that is not special |
| OidRegistry.FirstForGood | src/mechglue/gss_plugin.c:259-286 | Without an OID the answer is the item registered first, whatever is registered later |
| OidRegistry.UnspecialExact | src/mechglue/gss_plugin.c:288-306 | Exactly the special forms of registered OIDs are taken apart |
| OidRegistry.OffersExactly | src/mechglue/gss_plugin.c:308-360 | The set offered has no duplicates and holds exactly the special forms of the elements, a special one itself unless nothing is registered before it |
| OidRegistry.RegistersExactly | src/mechglue/gss_plugin.c:308-382 | Which OIDs an offer registers |
| OidPublication.StepKeepsInv | src/mechglue/gss_plugin.c:175-227 | Every load and store of the writer and the readers keeps the published chain in order and readers on it |
| OidPublication.ReadersSeePrefix | src/mechglue/gss_plugin.c:175-227 | In every interleaving no reader follows a missing pointer, and what it has seen is a prefix of the list then and ever after |
| OidPublication.StopsAtTheEnd | src/mechglue/gss_plugin.c:187-198 | A reader that finds no further flag has seen all that is published at that moment |
| OidPublication.ListIsAdded | src/mechglue/gss_plugin.c:212-257 | The list is what was added, in that order |
| OidPublication.SeesAllBefore | src/mechglue/gss_plugin.c:175-227 | In every interleaving a walk that has ended found everything published when it started |
| OidPublication.GoesOn | src/mechglue/gss_plugin.c:175-198 | A reader that saw a flag goes on to the next item, and ends only without one |
| ServiceSelection.MatchConn | src/gp_creds.c:75-103 | The first service whose user, program, socket and context are those of the connection, as far as they are set; none if there is no such service |
| ServiceSelection.SelectedFrom | src/gp_creds.c:86-102 | The selection matches, nothing before it does, and none is selected only if nothing matches |
| ServiceSelection.CheckProgram | src/gp_config.c:264-272 | Exactly absolute paths without a bar pass |
| ServiceSelection.CheckPair | src/gp_config.c:274-296 | Exactly the pairs with the same socket, program and context are refused whose earlier service is a catch-all or has the same uid |
| ServiceSelection.CheckServices | src/gp_config.c:249-302 | The nested loop returns 0 exactly for configurations without an objectionable program or pair |
| ServiceSelection.AcceptanceDecides | src/gp_config.c:249-302 | For an accepted configuration, exact-uid services come before catch-alls of the same key on every connection exactly when no hidden shadow is left |
| ServiceSelection.DefaultNameIsEnough | src/gp_config.c:256-298 | With the default socket name acceptance alone is enough |
| ServiceSelection.CatchAllIsLastResort | src/gp_creds.c:86-102 | Then a catch-all is selected only if no other service of its key takes the connection |
| ServiceSelection.HiddenShadow | src/gp_creds.c:92-93 | An accepted configuration with another socket name in which a catch-all takes a uid that has its own service |
| Reload.Daemon.Find | src/gp_init.c:119-131 | The first service of a name |
| Reload.Daemon.Start | src/gp_init.c:183-239 | At start-up the main listener and one per service with a socket are set up, successfully exactly when each of these sockets can be |
| Reload.Daemon.InitSockets | src/gp_init.c:175-240 | Success exactly when each socket that has to be set up can be, and then the loops have done the specified hand-over, closing and setting up |
| Reload.ReloadConserves | src/gp_init.c:175-240 | Without collisions the live listeners are exactly the main one and one per service with a socket, none shared or leaked, each with its current configuration's name |
| Reload.ReloadExact | src/gp_init.c:205-227 | They are if and only if no two old services would hand their listener to the same new one |
| Reload.MainKept | src/gp_init.c:183-203 | The main listener stays exactly when its socket's name does; otherwise a new one replaces it |
| Reload.ListenerKept | src/gp_init.c:205-240 | A service has one of the old listeners exactly when an old service of its name and socket handed it over |
| Reload.ListenerClosed | src/gp_init.c:205-227 | A listener that nobody takes over is closed |
| Reload.SameReload | src/gp_init.c:175-240 | Reloading the same services and socket name opens and closes nothing |
| Reload.UniqueNamesConserved | src/gp_init.c:175-240 | From start-up through any number of reloads with unique service names the listeners are conserved |
| Reload.DuplicateNamesLeak | src/gp_init.c:205-227 | init_sockets alone, given twice a configuration with two services of one name and socket, leaks a listener; no accepted configuration is like that |
| ConfigLoad.LoadServices | src/gp_config.c:304-567 | Loading succeeds exactly when every service section can be read, there is one, and the validator accepts them; the services are then those of the sections in order |
| ConfigLoad.LoadedFields | src/gp_config.c:345-545 | Each loaded service has what its section says |
| ConfigLoad.ServicesExact | src/gp_config.c:324-560 | Loading fails exactly on a faulty service section, and otherwise the krb5 sections are loaded, all of them |
| ConfigLoad.NamesDistinct | src/gp_config.c:249-567 | The services of an accepted configuration have distinct names |
| ConfigLoad.AlwaysConserved | src/gp_init.c:175-298 | From start-up through any number of reloads of any configuration files, refused ones changing nothing, the listeners are conserved |
| CredStore.FormattedString | src/gp_creds.c:119-183 | The in-place loop ends, for every template, with what the scan over the string and its length variable gives, accesses outside the string included |
| CredStore.ExpandFront | src/gp_creds.c:133-178 | What a template stands for: %U the uid, %u the user if there is one, %% a percent sign, any other directive none |
| CredStore.NoDoubledIsRight | src/gp_creds.c:119-183 | Without doubled percent signs the loop gives the recursive expansion, substituted text never looked at again |
| CredStore.BalancedIsRight | src/gp_creds.c:136-141 | With doubled percent signs it does if each is in the middle of the string when it is reached |
| CredStore.LoneDoubledExact | src/gp_creds.c:136-141 | For a template whose only percent signs are one doubled one, exactly when it expands right |
| CredStore.DoubledAlone | src/gp_creds.c:136-141 | A doubled percent sign alone is refused |
| CredStore.RightByAccident | src/gp_creds.c:136-141 | An unbalanced template that is right for the user name u: being balanced is not necessary |
| CredStore.CopyEntries | src/gp_creds.c:418-444 | The configured entries with their values formatted; the first value that is not a string decides |
| CredStore.FormatsEach | src/gp_creds.c:418-444 | Each configured value is formatted in its place; the first that is not a string decides |
| CredStore.PutKeytab | src/gp_creds.c:459-477 | The keytab's value in the client keytab's entry |
| CredStore.PutCache | src/gp_creds.c:250-291 | A private ccache unless one is configured |
| CredStore.BuildStore | src/gp_creds.c:406-485 | The assembled store, always within two more entries than are configured |
| CredStore.StoreFails | src/gp_creds.c:406-485 | There is no store exactly when a value is refused, or the keytab is wanted and neither a keytab nor a client keytab is configured |
| CredStore.StoreKeeps | src/gp_creds.c:418-485 | The configured entries stay in their places with their formatted values, except client keytabs when the service's keytab is used |
| CredStore.StoreAdds | src/gp_creds.c:446-485 | Exactly what is added: a client keytab if only a keytab is configured and used, and a private ccache unless one is configured or the keytab is wanted and only a client keytab is there |
| CredStore.StoreKeytab | src/gp_creds.c:446-477 | When the keytab is used, the client keytab that counts in the store has the value of the keytab that counts |
| CredStore.ClientKeytabIsKeytab | src/gp_creds.c:446-477 | With the service's keytab, the client keytab that counts has the keytab's value |

## Left out

- GSSAPI, krb5, SELinux, passwd, systemd and event-loop libraries: only as parameters, abstract functions or arbitrary outcomes.
- Xdr.Dec: decoding is on byte sequences, the cursor being what is left of them, so partly filled results of a failed decoding are not modelled.
- Memory exhaustion in the XDR routines, in the daemon's reply buffer, in the C client's send buffer and while loading a configuration.
- Sealing.Depad: bytes are unsigned; where plain char is signed, pads of 128 and more are never stripped. An empty decrypted text is left alone as in the Rust code, the C code does not handle it.
- CredStore.BalancedIsRight: goes one way only; that the other way is false in general is CredStore.RightByAccident.
- Reload.Daemon.InitSockets: nothing is said about the listeners when a socket cannot be set up, as the daemon exits then.
- ClientTransport.Step: the identity of the process does not change in the middle of a call.
- OidRegistry.Registry.NewSpecial: allocation failure and two concurrent writers.
- Fairness in the pool: wait and reply lists are stacks, so a query at the bottom may wait as long as others keep coming.
- The C client's timers and epoll set: a wait that fails is an event with any error number.
- ClientExchange.CallsOn: the runs are of calls that find their socket open; a change of identity, which makes the client open a new one, ends such a run.
- The executors of the procedures, the client's per-call marshalling and the mechglue wrappers: they convert between structures and foreign library calls, whose results are parameters here.
- ConfigLoad.ReadSection: the keys that only configure how credentials are used are an error number; the ini library and the passwd database give the same answer for the same name during one load.
- The ini library, logging and daemonising: they keep no state that the modelled parts depend on.
