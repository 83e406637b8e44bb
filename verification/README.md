# Verified models of dirge's core components

This project models, in Dafny, the parts of dirge whose correctness is hard to see by
reading one function, and proves what they promise. Each module stands for one component.

- **Framing** (`Bytes`, `Decimal`, `Framing`, `FramingTheorems`, `FramingErrors`, `HeaderLines`,
  `TornFrames`): the Content-Length printer and the bounded incremental parser shared by the LSP and
  DAP clients. A `Reader` object hands out the peer's bytes in arbitrary chunks and may end cleanly or
  break; `DecodeFrame` is proved to compute a function of the bytes alone, so its result cannot depend
  on the chunks. `HeaderLines` says what header text means without the parser's own classification.
- **Request correlation** (`RpcClient`, `RpcInvariant`, `RpcTheorems`, `RpcAtRest`, `RpcTears`,
  `RpcOutcomes`, `RpcInner`): the JSON-RPC client as a transition system. Any
  number of caller tasks (requests and notifications), one read loop and an arbitrary peer interleave
  at every await point and every access to a shared atomic. A caller may also be cancelled at any await
  point, which the source allows. `Inv` holds in every reachable state (`ReachableOk`), so theorems that
  require `Inv(s)` alone hold from every reachable state on. The fields `whole` and `torn` record history: `RpcTheorems.HistoryIsReal` shows
  that they record exactly the frames completed and the writes abandoned inside a frame. `RpcInner`
  holds the drain and read loops as loops.
- **Host object table, closures, strings** (`SlabHeap`, `MutClosure`, `Utf8`, `Utf8Order`,
  `StringPass`): the JavaScript glue of the wasm build. Memory and its allocator are a class whose
  method contracts are all that callers know, so any allocator that meets them is covered.
- **Button detection** (`FloodFill`, `Suppression`): both flood fills over an arbitrary mask, and
  the overlap suppression of text regions and buttons.
- **Atomic file replacement** (`AtomicWrite`, `AtomicTheorems`, `AtomicModes`, `AtomicFile`): any
  number of calls in any number of processes, interleaved at every system call. The stat, the create,
  each write, both changes of mode, the rename and the removal may fail, and any process may end at
  any moment. Its number may then go to a new process, whose counter starts from 0 and whose clock may
  read any time. Names map to inodes, which hard links may share; a reader keeps what it opened.
- **Agent turns** (`Transcript`, `TranscriptShown`): the tool-calling loop against an arbitrary
  model and arbitrary tools, and the handle that carries a transcript across turns.
- **Text cuts, hashing, sessions** (`TextCuts`, `Fnv`, `FnvVectors`, `SessionStore`, `SessionRaces`).

Names of the source's fields are kept where a class stands for an object. Functions written
`Apply`, `Next`, `Run` and the like define one step or a whole run; the theorems are about them, and
methods that change state are proved to do exactly what these functions say.

## Where the code does less than its comments say

- `ellipsize` documents a cap; the result is over the cap for budgets under three bytes when
  the text does not fit. `TextCuts.Ellipsize` states the exact condition.
- A request whose parameters fail to serialize, or whose caller drops it, can leave its entry in the
  pending map (`RpcTheorems.SerializationLeaks`, `RpcTheorems.CancelLeaks`). It does so if and only if
  it had registered and no frame or drain uses its sender; `RpcAtRest.MapAtRest` gives the content of
  the map at rest and `RpcAtRest.DroppedLeavesIff` the case of one dropped request.
- A write abandoned inside its frame is meant to close the transport so that nothing is written over
  it. It does so if and only if it failed in a request or notification: a failed acknowledgement and a
  caller dropped inside its frame close nothing (`RpcTears.StepTearsClose`, `RpcTears.TearsCloseIff`;
  runs: `RpcTears.AckTearStaysOpen`, `RpcTears.DroppedCallStaysOpen`). Even after a close, calls that
  are past the check and not done with their frame may write it, and only those
  (`RpcTears.WritesAfterCloseIff`, `RpcTears.RacingCallWritesOver`).
- The comment on `fail_transport` says that a stream cannot resync after a partial frame. The next
  frame is read as itself if and only if the cut is just behind the length line, or one byte later with
  bodies of equal length (`TornFrames.ResyncIff`).
- Temp names are kept apart by the counter within the life of a process; across processes with the
  same number only the clock does (`AtomicTheorems.TakenIff`; a run: `AtomicModes.NameIsTakenAgain`).
  What readers see stays complete all the same; only the mode of a new file may be inherited from a
  leftover (`AtomicModes.InheritsIff`, `AtomicModes.ModeIsInherited`).
- The rename is meant to keep the mode of the file. A stat that fails counts as a missing file, and the
  mode is lost, also for later writes whose stat succeeds (`AtomicModes.FailedStatLosesMode`,
  `AtomicModes.LostModeStays`); `AtomicModes.ExistingModeIff` is the exact condition.
- Atomic replacement protects a name if and only if it is not the temp name of an allowed name
  (`AtomicTheorems.CompleteIff`).
- A create draws its sequence number before it takes the lock, so its session may be listed behind
  others at once (`SessionRaces.RaceReordersCreates`): it is in front if and only if no session then
  listed was made or appended to since the draw (`SessionRaces.CreateAtFrontIff`).
- Two host unrefs during one activation of a closure leak its environment
  (`MutClosure.DoubleUnrefLeaks`); `MutClosure.HandleLife` says exactly when it is freed.
- Printing does not cap the body, so a body above 16 MiB is sent but refused by the parser
  (`FramingTheorems.RoundTrip`).

## Model

| member | source | states |
|---|---|---|
| Decimal.ParseOfPrint | src/jsonrpc_framing.rs:124 | A printed length parses back to itself, and fails to parse exactly when it exceeds a 64-bit `usize`. |
| Decimal.PrintLength | src/jsonrpc_framing.rs:80 | A length below a power of ten prints in that many digits, so a length line is short. |
| Decimal.PrintCanonical | src/jsonrpc_framing.rs:80 | A leading zero is printed for zero only, and then nothing else. |
| Decimal.ValueConcat | src/jsonrpc_framing.rs:124 | A digit weighs ten times what the digit after it does. |
| Framing.Reader.FillBuf | src/jsonrpc_framing.rs:51-54 | The reader shows some bytes, or none at the end of the stream, or an error on a broken stream. |
| Framing.Reader.Consume | src/jsonrpc_framing.rs:64 | Consuming drops exactly that many bytes from the front of what remains. |
| Framing.ReadHeaderLine | src/jsonrpc_framing.rs:45-71 | For every chunking: the first line and the rest, or the error kind fixed by the bytes; never more than the limit is taken or buffered. |
| Framing.ReadExact | src/jsonrpc_framing.rs:147-149 | The body and the rest, or an error when the stream ends first, for every chunking. |
| Framing.HeaderTurn | src/jsonrpc_framing.rs:98-140 | One turn of the header loop consumes at most 8 KiB, and at least one byte unless it fails, and reads the first line as the byte function does. |
| Framing.ReadHeaders | src/jsonrpc_framing.rs:94-146 | The header loop ends with the body length or the error fixed by the bytes, within its byte budget. |
| Framing.DecodeFrame | src/jsonrpc_framing.rs:90-150 | For every chunking the result is a function of the bytes; header consumption stays within 64 KiB on success and 72 KiB otherwise, the body buffer within 16 MiB; it terminates. |
| FramingTheorems.DecodedIsFrame | src/jsonrpc_framing.rs:98-149 | Whatever is decoded splits into header lines within both caps, one blank line at their end, the announced body and the rest. |
| FramingTheorems.FrameIsDecoded | src/jsonrpc_framing.rs:98-149 | Every stream that splits that way is decoded to that body and rest. |
| FramingTheorems.DecodeExact | src/jsonrpc_framing.rs:87-150 | Decoding succeeds with a body and rest if and only if such a split exists; other headers are ignored and the last Content-Length wins. |
| HeaderLines.LengthClass | src/jsonrpc_framing.rs:122-138 | A `Content-Length:` line announces `n` if and only if what follows is its digits, with or without a plus sign, between any white space, and `n` is at most 16777216; else it is refused. |
| HeaderLines.OtherClass | src/jsonrpc_framing.rs:138 | Any other line of ASCII with some text in it is ignored. |
| HeaderLines.BlankClass | src/jsonrpc_framing.rs:117-121 | A line ends the headers if and only if it holds nothing but carriage returns. |
| HeaderLines.HeadersDecode | src/jsonrpc_framing.rs:98-149 | Any headers, in any order, ignored ones among them, then a blank line and a body as long as the last length header says: the body and the rest are decoded. |
| HeaderLines.BadHeaderRefused | src/jsonrpc_framing.rs:122-137 | A length header without a number, or with one above the cap, behind any such headers: invalid data. |
| HeaderLines.FrameText | src/jsonrpc_framing.rs:76-85 | The bytes of a printed frame: the length line, the blank line, the body. |
| FramingErrors.ErrorExact | src/jsonrpc_framing.rs:45-149 | The error is that of the stream's end if and only if headers and body are fine as far as they go; every other error is invalid data. |
| FramingTheorems.RoundTrip | src/jsonrpc_framing.rs:76-85 | Decoding a printed frame followed by anything returns the body and leaves the tail, if and only if the body is within the cap; otherwise it is invalid data. |
| FramingTheorems.RoundTripMany | src/jsonrpc_framing.rs:10-12 | Frames written back to back are decoded one by one, in order, whatever follows. |
| TornFrames.TornDecoded | src/jsonrpc_client.rs:129-133 | For every cut of a frame, every next frame and every tail: an error, the next frame, or as many bytes as the torn frame announced, as the place of the cut decides. |
| TornFrames.ResyncIff | src/jsonrpc_client.rs:129-133 | The next frame is read as itself if and only if the cut is just behind the length line, or one byte later with bodies of equal length. |
| RpcInvariant.SenderNeverGone | src/jsonrpc_client.rs:188-191 | The receive-error arm of a request is never taken: a waiting request's sender is never dropped unused. |
| RpcInvariant.TaskKeeps | src/jsonrpc_client.rs:149-232 | Every step of every request or notification keeps the whole invariant: ids, waiters, hands, answers, wire. |
| RpcInvariant.StepKeeps | src/jsonrpc_client.rs:134-344 | So does every step of anyone, the read loop included. |
| RpcInvariant.RunKeeps | src/jsonrpc_client.rs:134-344 | So the invariant holds after every run. |
| RpcTheorems.ReachableOk | src/jsonrpc_client.rs:109-127 | The invariant holds in every state reachable from a new client. |
| RpcTheorems.CorrelationSafety | src/jsonrpc_client.rs:163-198 | A returned answer came in a frame carrying the request's own id, and no frame answers two calls. |
| RpcTheorems.CompletesOnce | src/jsonrpc_client.rs:186-198 | On every run a finished call stays finished with its result, and a used sender is never used again. |
| RpcOutcomes.FrameIsDelivered | src/jsonrpc_client.rs:293-298 | On every run, closed or not: a response frame that arrives while its id is in the map is the one its sender is used with, once the read loop is done with it. |
| RpcOutcomes.UnknownFrameIsDropped | src/jsonrpc_client.rs:293-298 | Any other response frame changes nothing. |
| RpcOutcomes.EndsAsSent | src/jsonrpc_client.rs:186-197 | On every run, once the sender of a waiting call is used the call can return, and returns nothing but what it was used with, connection-closed or that frame, unless it is dropped. |
| RpcOutcomes.FailureIsReturned | src/jsonrpc_client.rs:166-197 | A call that fails by its write, its wait or its parameters returns that failure and no other, unless it is dropped. |
| RpcOutcomes.CheckDecides | src/jsonrpc_client.rs:160-162 | The check lets a call through if and only if the client is open then. |
| RpcOutcomes.WrittenFrame | src/jsonrpc_client.rs:169-186 | Behind its frame a request waits and a notification is over. |
| RpcTheorems.SenderConserved | src/jsonrpc_client.rs:163-196 | A registered request's sender is in exactly one of the map, an actor's hands and the used ones; only a timed-out or cancelled call may have none. |
| RpcTheorems.NoSenderYet | src/jsonrpc_client.rs:163-165 | Between allocation and registration no sender with the id exists anywhere. |
| RpcTheorems.Quiescence | src/jsonrpc_client.rs:163-196 | When all calls have returned, what is left in the map is unused senders of requests that failed to serialize or were dropped, the former all of them; without dropped calls exactly those. |
| RpcTheorems.SerializationLeaks | src/jsonrpc_client.rs:165-168 | A serialization failure does leave an entry behind. |
| RpcTheorems.CancelLeaks | src/jsonrpc_client.rs:163-173 | So may a request that its caller drops. |
| RpcAtRest.MapAtRest | src/jsonrpc_client.rs:163-196 | On every run to a state where all calls have returned: an id is in the map if and only if it was registered, its sender was not used, and its call failed to serialize or was dropped. |
| RpcAtRest.DroppedLeavesIff | src/jsonrpc_client.rs:163-196 | A dropped request leaves its entry behind if and only if it had registered and its sender is never used. |
| RpcTheorems.WriteErrorCloses | src/jsonrpc_client.rs:134-140 | From every reachable state `closed` is monotone and holds whenever a call returned a write error or the read loop passed its end. |
| RpcTheorems.RefusedAfterClose | src/jsonrpc_client.rs:160-162 | A call that checks after the close only ever gets connection-closed, without an id, a sender or a byte written. |
| RpcTheorems.EachPendingDrained | src/jsonrpc_client.rs:134-140 | Each sender in the map when a drain takes it is used with connection-closed and nothing else, before that drain ends, whatever runs meanwhile. |
| RpcTheorems.NoResponseAfterEnd | src/jsonrpc_client.rs:256-283 | Once the peer's stream has ended no request newly receives a response. |
| RpcTheorems.WireIntegrity | src/jsonrpc_client.rs:169-173 | Until a write is torn, a peer decoding the wire recovers exactly the completed bodies, in lock order, and is left with the start of the frame in progress. |
| RpcTheorems.CompletedSurvive | src/jsonrpc_client.rs:129-133 | Whatever is torn or written over later, the peer still decodes the bodies completed before the tear. |
| RpcTears.StepTearsClose | src/jsonrpc_client.rs:174-184 | A step keeps "a torn stream is closed or about to be" if and only if it is no abandoned acknowledgement or dropped call inside its frame, or somebody is closing already. |
| RpcTears.SilentTearClosesNothing | src/jsonrpc_client.rs:319-337 | An acknowledgement or a dropped call that tears the stream leaves `closed` as it was and makes no call fail. |
| RpcTears.TearsCloseIff | src/jsonrpc_client.rs:129-140 | All along a run a torn stream means a closed or closing transport if and only if no such silent tear happens while nobody is closing. |
| RpcTears.EveryRunTearsCloseIff | src/jsonrpc_client.rs:129-140 | The same for every run of a new client, and for its last state. |
| RpcTears.WritesAfterCloseIff | src/jsonrpc_client.rs:144-148 | Once `closed` is stored, a call can still write a whole frame if and only if it is past the check and not done with its frame. |
| RpcTears.AckTearStaysOpen | src/jsonrpc_client.rs:319-337 | For every cut of a failed acknowledgement the client stays open and a later frame is written over it. |
| RpcTears.DroppedCallStaysOpen | src/jsonrpc_client.rs:216-220 | So for every cut of a call dropped by its caller. |
| RpcTears.RacingCallWritesOver | src/jsonrpc_client.rs:144-148 | A call past the check writes over a tear that did close. |
| RpcTears.PeerReads | src/jsonrpc_client.rs:129-133 | What the peer then decodes: the later frame exactly at the cuts that resync. |
| RpcTheorems.LateRequestAnswered | src/jsonrpc_client.rs:144-148 | A request that passed the check before a close may still write after it and be answered. |
| RpcInner.FirstAnswerExact | src/jsonrpc_client.rs:293-298 | The answer a waiter gets is the first frame with its id. |
| RpcInner.Inner.FailTransport | src/jsonrpc_client.rs:134-140 | Closes and uses every pending sender once with connection-closed; other results stand. |
| RpcInner.Inner.DispatchResponse | src/jsonrpc_client.rs:293-298 | A response uses the sender with its id, and an unknown or repeated id changes nothing. |
| RpcInner.Inner.RunReadLoop | src/jsonrpc_client.rs:249-289 | Undisturbed, every waiter gets the first response with its id, or connection-closed at the end of the stream, whatever else the peer sends. |
| RpcInner.DrainRuns | src/jsonrpc_client.rs:136-139 | In the step system a drain can always run to its end, in any order, using exactly the senders it holds. |
| SlabHeap.AddKeeps | pkg-web/dirge_agent.js:794-801 | A new handle is a slot of at least 1028 not in use; the free list stays acyclic and exact, live handles keep their objects, reserved slots never change. |
| SlabHeap.DropKeeps | pkg-web/dirge_agent.js:872-876 | Dropping a live handle puts its slot at the head of the free list; dropping a reserved one does nothing. |
| SlabHeap.EveryHeap | pkg-web/dirge_agent.js:913-916 | From the initial heap, every sequence of adds and of drops of live handles runs to its end without getting stuck, and the slab is well formed for what is then live. |
| SlabHeap.DropSafeIff | pkg-web/dirge_agent.js:872-876 | A drop keeps the table well formed if and only if the slot is reserved or live: a second drop always breaks it. |
| SlabHeap.InitialExact | pkg-web/dirge_agent.js:913-914 | The 1028 reserved handles: undefined, but null at 1025, true at 1026 and false at 1027. |
| SlabHeap.Heap.Add | pkg-web/dirge_agent.js:794-801 | The code does the abstract add and returns a handle that was not live. |
| SlabHeap.Heap.Drop | pkg-web/dirge_agent.js:872-876 | The code does the abstract drop; the handle is no longer live. |
| SlabHeap.Heap.Get | pkg-web/dirge_agent.js:903 | A live handle returns the object it was made for, a reserved one its constant. |
| SlabHeap.Heap.Take | pkg-web/dirge_agent.js:987-991 | Returns the object and drops the handle. |
| MutClosure.StepKeepsToken | pkg-web/dirge_agent.js:922-948 | Every invocation, return and unref keeps the pointer in one place and the count right. |
| MutClosure.TokenInOnePlace | pkg-web/dirge_agent.js:922-948 | For every nesting the pointer is in the record, the outermost frame or the destructor's hands; it is freed at most once, and once exactly with one unref and no frame left. |
| MutClosure.NeverFreedWhileRunning | pkg-web/dirge_agent.js:930-937 | The destructor gets the pointer only when no body runs; a nested invocation sees 0. |
| MutClosure.FreedIff | pkg-web/dirge_agent.js:939-945 | The pointer is freed on a run if and only if at some moment there was exactly one unref and no frame. |
| MutClosure.HandleLife | pkg-web/dirge_agent.js:922-948 | Both facts for the whole life of a handle. |
| MutClosure.DoubleUnrefLeaks | pkg-web/dirge_agent.js:935-943 | Two unrefs inside one call end with the pointer in the record and the count below zero. |
| MutClosure.Handle.Release | pkg-web/dirge_agent.js:939-945 | The code of the unref does the abstract step. |
| MutClosure.Handle.Real | pkg-web/dirge_agent.js:924-938 | An invocation with any nested body has exactly the effect of its events in order. |
| MutClosure.BalancedFrames | pkg-web/dirge_agent.js:930-936 | A body leaves the saved pointers of the invocations around it alone. |
| Utf8.ValidExact | src/text.rs:1-8 | The byte syntax of RFC 3629, section 4, accepts exactly the encodings of its section 3. |
| Utf8.DecodeOfEncode | pkg-web/dirge_agent.js:993-1007 | Encoding any scalar values gives valid UTF-8 that decodes to them. |
| Utf8.BoundaryExact | src/text.rs:47-71 | On valid text the one-byte boundary test holds exactly where the cut leaves valid text, on both sides. |
| Utf8.BoundariesNearby | src/text.rs:47-71 | Around every offset there are boundaries within three bytes on each side. |
| Utf8.CountIsHeads | src/text.rs:104 | The number of characters is the number of non-continuation bytes. |
| Utf8Order.ScalarOrder | pkg-web/dirge_agent.js:966-981 | Encodings sort by bytes as the scalar values do. |
| Utf8Order.OrderKept | pkg-web/dirge_agent.js:966-981 | So do whole texts. |
| Utf8Order.Examples | pkg-web/dirge_agent.js:966-981 | Examples of RFC 3629, one of each length. |
| StringPass.ThreeBytesSuffice | pkg-web/dirge_agent.js:975 | Three bytes per code unit always hold the encoding. |
| StringPass.AsciiPrefix | pkg-web/dirge_agent.js:966-974 | An ASCII prefix encodes to itself and the rest encodes as if alone. |
| StringPass.LosslessIff | pkg-web/dirge_agent.js:950-985 | What is passed is valid UTF-8, and decodes to the same string if and only if that has no lone surrogate. |
| StringPass.UnitsExact | pkg-web/dirge_agent.js:950-985 | Unit by unit: exactly the surrogates without their other half come back as U+FFFD. |
| StringPass.PairExact | pkg-web/dirge_agent.js:950-985 | A pair of surrogates is passed as the one scalar value it stands for. |
| StringPass.AllFits | pkg-web/dirge_agent.js:977 | With enough room `encodeInto` writes the whole encoding. |
| StringPass.Memory.PassString | pkg-web/dirge_agent.js:950-985 | With or without `realloc`: exactly the UTF-8 encoding at the returned pointer and length, in a fresh allocation of that size, and no other owned byte changed. |
| StringPass.Memory.EncodeRest | pkg-web/dirge_agent.js:971-981 | The slow path completes the encoding within the grown allocation and shrinks it to fit. |
| FloodFill.MarkKeeps | plugins/computer_use_vision.py:196-200 | Marking a popped cell and pushing its neighbours keeps the search invariant. |
| FloodFill.SearchDone | plugins/computer_use_vision.py:190-200 | With an empty stack exactly the seed's component is newly marked. |
| FloodFill.Visit | plugins/computer_use_vision.py:190-200 | One turn of the loop keeps the invariant and the bounds, and lowers five per unmarked cell plus the stack size. |
| FloodFill.Fill | plugins/computer_use_vision.py:187-200 | Started on whole components, the loop marks exactly the seed's 4-connected component, terminates, and returns its tight box. |
| FloodFill.Scan | plugins/computer_use_vision.py:238-256 | After the scan exactly the components hit by a sample point are marked, each reported once with its tight box. |
| FloodFill.GridGap | plugins/computer_use_vision.py:182-183 | Sample coordinates are a step apart, so no sample is skipped. |
| FloodFill.GridExact | plugins/computer_use_vision.py:182-183 | The sample coordinates are exactly the multiples of the step. |
| Suppression.OverlapIsCommonPoint | plugins/computer_use_vision.py:46-52 | Two boxes overlap exactly when the grown boxes have an inner point in common. |
| Suppression.SortedRanked | plugins/computer_use_vision.py:57 | The sort ranks highest first and permutes. |
| Suppression.KeepOk | plugins/computer_use_vision.py:58-63 | What the loop keeps is apart, ranked, from the input, and covers the input. |
| Suppression.SelectExact | plugins/computer_use_vision.py:55-63 | Kept boxes are pairwise apart; every discarded one overlaps a kept one ranked at least as high; selecting again changes nothing. |
| Suppression.ButtonsExact | plugins/computer_use_vision.py:267-274 | The same for buttons with the cut to twenty: a dropped button overlaps a larger or equal kept one, or twenty at least as large are kept. |
| Suppression.SortedKeepsTies | plugins/computer_use_vision.py:57 | The sort is stable: boxes of equal rank stay in their order. |
| Suppression.KeepGreedily | plugins/computer_use_vision.py:58-63 | The loop, appending to its list, computes the greedy selection. |
| Suppression.MergeOverlapping | plugins/computer_use_vision.py:55-63 | Every region is kept or overlaps, with a margin of 3, a kept one of higher confidence, or of equal confidence and text at least as long; the result falls in that order and is apart; merging again changes nothing. |
| Suppression.DedupButtons | plugins/computer_use_vision.py:267-274 | At most twenty buttons from the input, pairwise apart by a margin of 5, by falling area; a dropped one overlaps a kept one at least as large, or twenty at least as large are kept. |
| Suppression.AnyOverlap | plugins/computer_use_vision.py:60 | The search finds a hit exactly when there is one. |
| AtomicWrite.TempNameInjective | src/fs_atomic.rs:36-48 | Temp names determine stem, pid, time and counter. |
| AtomicWrite.TempIsSibling | src/fs_atomic.rs:36-48 | The temp file is a hidden sibling of the target, and never the target. |
| AtomicTheorems.TakenIff | src/fs_atomic.rs:26-48 | The name about to be picked is taken if and only if an ended process with the same number picked it for the same target at the same time with the same counter value. |
| AtomicTheorems.RenameKeeps | src/fs_atomic.rs:128 | The rename publishes exactly the complete file of that call. |
| AtomicTheorems.StepKeeps | src/fs_atomic.rs:98-138 | Every step, failure and crash keeps the invariant. |
| AtomicTheorems.ReadsAreComplete | src/fs_atomic.rs:1-20 | Over every interleaving, whatever the clock reads, a target reads as the complete file of the last committed call, or as the original. |
| AtomicTheorems.ErrNeverCommits | src/fs_atomic.rs:131-137 | A call is committed exactly when it returned Ok, and once; an error never changed the target. |
| AtomicModes.ExistingModeIff | src/fs_atomic.rs:55-67 | A file that existed is always there; it has its old mode if and only if the commits to it, each followed to the stat whose mode it restored, lead back to it or to one that left the same mode by chance. |
| AtomicModes.ExistingModeKept | src/fs_atomic.rs:121-127 | So it keeps its mode when every commit to it restored the one found. |
| AtomicModes.FailedStatLosesMode | src/fs_atomic.rs:59-66 | From every start, a private write whose stat fails returns Ok and leaves the file owner-only. |
| AtomicModes.LostModeStays | src/fs_atomic.rs:59-66 | A later write whose stat succeeds keeps the lost mode lost. |
| AtomicModes.InheritsIff | src/fs_atomic.rs:103 | On every run a temp file gets the umask's mode if and only if no leftover with another mode is under its name; a leftover is from before or of an ended process. |
| AtomicModes.NameIsTakenAgain | src/fs_atomic.rs:26-48 | A call of a recycled process number can find its next temp name taken. |
| AtomicModes.ModeIsInherited | src/fs_atomic.rs:103-110 | A call that is not private can so publish an owner-only file. |
| AtomicModes.FreshTemp | src/fs_atomic.rs:26-48 | With a clock that does not repeat for a recycled process number the name picked belongs to no other call. |
| AtomicModes.NewFilesGetUmask | src/fs_atomic.rs:88-97 | With such a clock and no leftovers at the start, what is published without restoring a mode has the umask's mode, or owner-only if that was set. |
| AtomicTheorems.PublishedIsSettled | src/fs_atomic.rs:16-20 | No call at work has a published file open. |
| AtomicTheorems.OpenedFileNeverChanges | src/fs_atomic.rs:16-20 | A reader that opened a target keeps reading that one complete version. |
| AtomicTheorems.TempNamesAreExposed | src/fs_atomic.rs:32-35 | At every temp name of an allowed name some run shows a reader a file nobody committed there. |
| AtomicTheorems.CompleteIff | src/fs_atomic.rs:1-20 | A path reads complete on every run if and only if it has no such name. |
| AtomicFile.FileSystem.AtomicWriteInner | src/fs_atomic.rs:98-138 | The code, system call by system call, over a leftover too: Ok leaves the content, with the mode found if the stat and its restoring succeed, else 0600 if private and hardened, else that of the umask or the leftover; an error leaves the target as it was; no other path changes; the temp is gone unless its removal failed. |
| AtomicFile.FileSystem.WriteAll | src/fs_atomic.rs:112 | All bytes are written, or the write stops at the fault; no other path changes. |
| Transcript.RoundContentsExact | src/agent_core.rs:132-140 | The round's message carries all texts and all calls of the response, in order. |
| Transcript.PairedConcat | src/agent_core.rs:87-91 | Well-paired transcripts can be put together. |
| Transcript.PairedMeans | src/agent_core.rs:142-148 | In a paired transcript the j-th call of a message is answered by the j-th message after it, with its id. |
| Transcript.EveryTurnGood | src/agent_core.rs:92-152 | For every model and tools: at most the allowed number of requests, on strictly growing transcripts; success extends the input by complete rounds and ends with the non-empty text returned. |
| TranscriptShown.TurnShown | src/agent_core.rs:92-152 | For every model and tools: each transcript the model is given is the one before, the texts and calls of its response as one message, and the answers of the tools; the last response decides the outcome. |
| TranscriptShown.SucceedsIff | src/agent_core.rs:92-152 | A turn succeeds if and only if the last response has no calls and some text, and returns that text. |
| Transcript.JoinExact | src/agent_core.rs:123 | The text returned is the response's texts in order, with one newline between any two. |
| Transcript.ItemsExact | src/agent_core.rs:115-121 | The texts and the calls of a response, each in order; nothing else is taken from it. |
| Transcript.Agent.DispatchCall | src/agent_core.rs:154-161 | What the first tool of that name answers, or an unknown-tool error with the name. |
| Transcript.Agent.Collect | src/agent_core.rs:112-121 | Texts and calls are collected in order. |
| Transcript.Agent.RunCalls | src/agent_core.rs:142-148 | One result per call, in order, with its id: the text of the first tool of that name, or "tool error: " and its error, or that no tool has the name. |
| Transcript.Agent.RunTranscript | src/agent_core.rs:92-152 | The loop computes that turn, and keeps a paired history paired. |
| Transcript.WholePaired | src/agent_core.rs:87-91 | A successful turn keeps pairing and adds no prompt. |
| Transcript.AgentHandle.Run | src/lib.rs:269-284 | Over any mix of turns the transcript stays paired and holds every submitted prompt in order; a failed turn leaves only its prompt, a failed client nothing. |
| TextCuts.Head | src/text.rs:39-45 | The longest valid prefix within the budget, at most three bytes short of it. |
| TextCuts.CharBoundaryAtOrBefore | src/text.rs:49-58 | The last valid cut not after the offset, within three bytes of it. |
| TextCuts.CharBoundaryAtOrAfter | src/text.rs:62-71 | The first valid cut not before the offset, within three bytes of it. |
| TextCuts.Ellipsize | src/text.rs:73-83 | Valid text, within the budget if and only if it already was or the budget holds the marker. |
| TextCuts.TruncateHeadKeeps | src/text.rs:99-110 | Over budget: a valid prefix of exactly that many characters and a note; kept and dropped characters add up. |
| TextCuts.TruncateHeadBytes | src/text.rs:119-129 | The longest valid prefix within the byte budget and a note; kept and dropped bytes add up. |
| Fnv.FoldReversible | src/hash.rs:18-21 | Hashing the same bytes into two states never merges them. |
| Fnv.OneByteApart | src/hash.rs:18-21 | Messages that differ in exactly one byte never collide. |
| Fnv.CommonSuffix | src/hash.rs:18-21 | Messages with a common suffix collide exactly when what precedes it does. |
| Fnv.StepBijective32 | src/hash.rs:14-23 | Each 32-bit step is a bijection of the state, with inverse factor 0x359c449b. |
| Fnv.StepBijective64 | src/hash.rs:26-35 | The same for 64 bits. |
| Fnv.Step32Ok | src/hash.rs:14-23 | A 32-bit step is reversible and separates bytes. |
| Fnv.Step64Ok | src/hash.rs:26-35 | The same for 64 bits. |
| Fnv.Hash32Injective | src/hash.rs:14-23 | Both injectivity facts for the 32-bit hash. |
| Fnv.Hash64Injective | src/hash.rs:26-35 | Both injectivity facts for the 64-bit hash. |
| Fnv.HashBytes32 | src/hash.rs:14-23 | The loop computes the fold of the steps. |
| Fnv.HashBytes64 | src/hash.rs:26-35 | The loop computes the fold of the steps. |
| Fnv.XorIsBitwise | src/hash.rs:18-19 | Bit `k` of the exclusive or is set exactly where the operands differ. |
| FnvVectors.Vectors32 | src/hash.rs:44-50 | The published 32-bit values for the empty message, "a" and "foobar". |
| FnvVectors.Vectors64 | src/hash.rs:52-57 | The published 64-bit values. |
| SessionStore.StepRefines | src/session_core.rs:55-124 | Each operation on the store is the move-to-front operation on the list it stands for. |
| SessionStore.EveryStore | src/session_core.rs:43-47 | After every sequence of operations the store stands for the move-to-front list, with sequence numbers distinct and below the counter. |
| SessionStore.FallingUnique | src/session_core.rs:113 | Sorting by sequence number has one result. |
| SessionStore.MemorySessionStore.CreateSession | src/session_core.rs:55-74 | A create that nothing interrupts puts its session at the front. |
| SessionRaces.EveryRace | src/session_core.rs:55-74 | With creates that draw their number before the insert, in every interleaving: numbers stay distinct and below the counter, and the list is the move-to-front list in which a create counts from its draw and shows from its insert. |
| SessionRaces.CreateAtFrontIff | src/session_core.rs:55-74 | For every run between the draw and the insert: the session is in front if and only if no session then listed was made or appended to since the draw. |
| SessionRaces.RaceReordersCreates | src/session_core.rs:55-74 | Two racing creates can be listed in the other order than they inserted. |
| SessionStore.MemorySessionStore.AppendMessage | src/session_core.rs:77-92 | The message goes to the end of its session and the session to the front; an unknown id is an error and changes nothing. |
| SessionStore.MemorySessionStore.GetSession | src/session_core.rs:95-102 | Finds the session in the list or reports it missing. |
| SessionStore.MemorySessionStore.DeleteSession | src/session_core.rs:118-124 | Removes the session and keeps the order of the others; a missing id changes nothing. |
| SessionStore.MemorySessionStore.List | src/session_core.rs:105-115 | Whatever order the map yields, the result is the move-to-front list. |

## Left out

- Lossy decoding of header bytes outside ASCII is a parameter that must be exact on ASCII.
- Values carried by JSON-RPC frames: an answer is identified by the number of the frame it came in.
- Notification handlers, the classification of messages and the abort of the read loop task.
- The mutex around the pending map is not held across a drain's sends in the step system, which
  allows more interleavings than the code has.
- Timers: a deadline may pass at any moment at which the code would notice it.
- Wrap-around of the 64-bit id, nonce and sequence counters.
- Garbage collection of closures, the generated import table and the class wrappers of the glue.
- `malloc` and `realloc` that fail, and a wasm memory whose view is detached during a call.
- The image filters, thresholds and density tests around the flood fills, and the filter that
  turns component boxes into buttons: the mask is arbitrary and all boxes are reported.
- Power loss: `fsync` is best effort. Paths with different spelling are assumed to name different
  files, and leftover temp files to have no other hard link.
- Symbolic links: `metadata` follows one at the target, and the rename replaces it.
- SessionStore.MemorySessionStore.CreateSession: as one step, since the class is not shared;
  `SessionRaces` has the draw and the insert apart.
- A tool is a function of the number of the call within its turn and the arguments: one whose answers
  depend on earlier turns is a change of `tools` between turns.
- The wall clock, random session ids and the model client of the agent are parameters.
- The 77-character preview, short ids and other display helpers of the text module.
- Configuration, process, terminal and network code, which one reads branch by branch.
