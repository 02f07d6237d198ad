# Understory

A Dafny model of the parts of Understory whose behaviour spans several calls or whole runs, with proofs about it.

- **Payload transport.** A sender frames each queued payload as type, size and body, the body in chunks; a receiver puts
  the frames together again and pushes them to a locked queue that all sockets of a server share; a consumer drains that
  queue in batches. `Payloads` has the frames, `AtomicQueue`, `PayloadLogger`, `PayloadSender`, `PayloadReceiver`,
  `PayloadProcessor` the objects, `Connection` one sender and one receiver joined by a socket, `Server` any number of
  connections with spawn ids and the consumer. Every callback is one step; a run is any list of steps that may happen.
  `OverlappingSends` and `LiteralRuns` are about sends made during a transfer.
- **Hover and events.** `Hover` has the traversal of the widget tree with its cached pointer per container, and the plain
  first-hit search; `HoverRuns` says exactly when a move leaves the right flags, `HoverLayouts` follows them over runs of
  moves with geometry; `Widgets` has the widget objects whose recursive method is that traversal; `AppContainer` routes presses, moves, releases and scrolls.
- **Update check.** `LazyRegex` is a backtracking matcher for literals and lazy `.*?` and a proof about when it need not
  backtrack; `Manifest` applies it to the expression the update checker uses; `LineFeeds` says what the removal of line
  feeds leaves, `ManifestEntries` and `ManifestLines`
  say what the search loop records; `UpdateDecision` has the comparison, `VersionOrder` says when its order is that of the numbers.
- **Camera.** `Zoom` has the zoom animation on the world matrix and `ZoomViews` what the view shows in the end,
  `AccelerationWindow` the sampling of mouse moves, `Keyboard` the arrow keys and coasting, and `KeyboardTravel` how far
  they go. `Easings`, `Vectors` and `WorldMatrix` are shared, as is `Options`.
- **Scrolling.** `Scroll` has a panel with its content and handle, on the vertical axis; `ScrollFrames` follows their
  animations to the end.

Specification functions are on values; each object has a function that gives its value, and each method says that it
takes the old value to what the specification makes of it. Invariants and theorems are about the specification.

## Assumptions

- A socket is a reliable byte FIFO. An asynchronous read or write completes with its whole buffer or fails; a failed
  write is the last thing a socket takes, possibly in part.
- Scalars of a header are written in the width of their C++ types, 4 and 8 bytes, low byte first, by both ends.
- `_sendPayload` returns early when `_isProcessing` is set (src/network/IPayloadSender.cpp:37), but nothing on the sending
  side sets it; the receiver does, on its own copy (src/network/IPayloadReceiver.cpp:61). The comment beside the guard
  says what it is for. What the guard reads is therefore a parameter of a send. `Connections` and `Servers` assume that it
  reads whether a chain is active (`Connections.Guarded`), which for the code as written means that no send is made during
  a transfer. `OverlappingSends` and `LiteralRuns` take the code as written, where the guard always reads false.
- An encoded message begins with the tag of its first field, in the protobuf wire format: 9 for the one `fixed64` of a
  heartbeat (src/models/Heartbeat.proto), 10, 18 or 26 for a handshake (src/models/User.proto). Nothing else is assumed of
  the encoding.
- `waitToBeFilled` waits without a predicate, so a wake-up says nothing about the queue. Wake-ups are arbitrary and the
  claims are about safety.
- Hover callbacks do not move widgets. Every widget is in one place of the tree.
- Floating-point numbers are exact reals; the exponential easing is any monotone function on the unit interval that
  fixes the end points. A frame's progress and whether it is the last are what the animation player reports. The clock
  does not go back.
- A state of `std::map` iteration is a set of keys still to be visited; the result does not depend on the order.

## Findings

Properties that one would expect, that the code does not have in general, and the exact condition under which it does.

- Sends made during a transfer start chains of their own. At most one chain is ever active if and only if no send
  overlaps (`LiteralRuns.OneChainExactlyWithoutOverlap`); then everything holds that holds with a guard
  (`LiteralRuns.LiteralTransportIsFaithful`). After an overlapping send, whatever the order in which writes complete, the
  sender comes to the failing assertion of `pop` unless another send or an error intervenes
  (`OverlappingSends.OverlapReachesAssertion`). If any heartbeat or handshake is sent while the size of another is being
  written, a receiver may deliver a payload nobody sent: the type of the first followed by the start of its body
  (`LiteralRuns.MessagesAreCorrupted`, `LiteralRuns.OverlappingCallsShift`).
- The receiver does not call `logPayloadSize`, so the trace of a received payload has size 0, which is right if and only
  if its body is empty (`Connections.ReceivedSizeIsRightExactlyIfEmpty`).
- The flags of hovered widgets are the path to the one found, after each move of a run, if and only if each move is fresh
  (`HoverLayouts.FlagsArePathThroughoutExactlyIfFresh`): a widget of the old path that is still under the cursor has its
  container under it and no earlier sibling. The open panel of this program lies over its earlier sibling, the button
  (src/app/USApplication.cpp:148), and a cursor that goes from one onto the other leaves both flagged
  (`HoverLayouts.PanelStaysFlaggedOverButton`).
- The version order is that of strings. For dotted versions it is that of the numbers if and only if, at the first number
  that differs, the one with fewer digits is also the smaller string (`VersionOrders.OrderIsNumericExactly`), so 10 is
  older than 9. The repository's version test (tests/ci_tests/update_checker.cpp:10) passes the remote version as the
  local one and the other way round, so what it requires is not what the code computes; the model follows the code.
- `.` does not match a carriage return, and only line feeds are removed from a manifest. So carriage returns cut it into
  lines; on each an entry is an opening name tag, the first closing one after it, the first opening version tag after
  that and the first closing one after that, and the next entry comes behind it. An entry is recorded if and only if it has
  a name (`ManifestLines.ManifestHoldsLastVersionsOfLines`); what is broken by a carriage return is no entry. A name
  without a version takes that of the next entry on its line (`ManifestEntries.MissingVersionTakesNext`).
- A release of a drag carries nothing on if and only if there was no move, or no time has passed, or more than 200 ms have
  and the last move is at least as long ago as the largest running total within 200 ms, or the moves that count cancel out
  (`AccelerationWindow.ReleaseCarriesNothingExactly`). That total is 0, so that past 200 ms even an immediate release
  carries nothing, if and only if one move came more than 200 ms after others that took no time
  (`AccelerationWindow.EmptyExactlyAfterLateMove`).
- A wheel event animates from what is shown if and only if the last event that changed the animation was an applied frame
  or a drag, or the value left unshown happens to be the one shown: starting an animation blanks its current value, and a
  player's last frame sets it without showing it (`Scrolls.WheelStartsFromShownExactly`).
- The scroll position becomes negative if and only if the content is smaller than the canvas and the scroll does not aim
  above the top (`Scrolls.PositionGoesNegative`). No present caller produces it: the one content there is gets 7.5 times
  the lower edge of its canvas (src/app/widgets/atomSelector/AtomSelectorGrid.hpp:92-99).

## Model

| member | source | states |
|---|---|---|
| Payloads.Serialize | src/network/Marshaller.cpp:28-34 | a serialized payload has the type and body given, and a size field that is the length of the body |
| Payloads.HeaderRoundTrip | src/network/IPayloadReceiver.cpp:69-89 | type and size come out of their bytes as they went in, over the whole range of both |
| Payloads.BytesRoundTrip | src/network/IPayloadReceiver.cpp:84-100 | whatever bytes a receiver stores as a scalar are the bytes of that scalar |
| Payloads.FrameIsSelfDelimiting | src/network/IPayloadSender.cpp:67-142 | two streams that begin with frames are equal only if the frames and the rests are |
| Payloads.UniqueDecoding | src/network/IPayloadReceiver.cpp:65-139 | payloads whose frames open a stream of frames are a prefix of the payloads of that stream, all of them if nothing is left over |
| AtomicQueues.AtomicQueue.Push | src/network/AtomicQueue.cpp:24-32 | the value goes to the back, and the emptiness flag is right when the lock is released |
| AtomicQueues.AtomicQueue.Front | src/network/AtomicQueue.cpp:34-39 | the oldest value, the queue not being empty |
| AtomicQueues.AtomicQueue.Pop | src/network/AtomicQueue.cpp:41-53 | the oldest value goes, the flag is right, and the result says whether the queue is empty now |
| AtomicQueues.AtomicQueue.PopIntoQueue | src/network/AtomicQueue.cpp:55-74 | everything moves to the local queue in order and the flag is right |
| AtomicQueues.AtomicQueue.Empty | src/network/AtomicQueue.cpp:76-79 | the unlocked flag agrees with the queue |
| PayloadProcessors.PayloadProcessor.ProcessPayloadQueue | src/network/IPayloadProcessor.cpp:27-48 | for any wake-ups, and a callback whose answer may depend on all calls so far, what was queued and pushed is what was processed, then what a break dropped, then what is queued, in order; only the last call can have asked to stop |
| PayloadProcessors.PayloadProcessor.ProcessBatch | src/network/IPayloadProcessor.cpp:38-46 | a batch splits into the processed part and exactly the tail a break leaves |
| PayloadProcessors.OneMoreCall | src/network/IPayloadProcessor.cpp:41-42 | one more call keeps the record of calls that did not ask to stop, or ends it |
| PayloadProcessors.OneMoreWakeUp | src/network/IPayloadProcessor.cpp:33-36 | what is pushed before a wake-up keeps the conservation law |
| PayloadLogging.PayloadLogger.LogNewPayload | src/network/PayloadLogger.cpp:26-29 | the next id is opened and the rest of the log stays |
| PayloadLogging.PayloadLogger.LogPayloadType | src/network/PayloadLogger.cpp:35-37 | only the type of the open trace changes |
| PayloadLogging.PayloadLogger.LogPayloadSize | src/network/PayloadLogger.cpp:39-41 | only the size of the open trace changes |
| PayloadLogging.PayloadLogger.CommitPayloadSpeed | src/network/PayloadLogger.cpp:43-49 | the bytes are booked on the open id |
| PayloadLogging.PayloadLogger.CommitLog | src/network/PayloadLogger.cpp:51-54 | the open trace is appended to the committed ones |
| PayloadLogging.OpenedBalanced | src/network/PayloadLogger.cpp:26-41 | opening a payload keeps the books straight, with nothing booked on the new id, and its trace has the type and the size that were logged |
| PayloadLogging.SpeedBalanced | src/network/PayloadLogger.cpp:43-49 | booking bytes adds them to the open payload and to no other |
| PayloadLogging.SuccessBalanced | src/network/PayloadLogger.cpp:51-54 | committing a finished payload leaves ids 1 to n in order, and each finished payload with its type, its logged size and its bytes |
| PayloadLogging.FailureBalanced | src/network/PayloadLogger.cpp:51-54 | committing after an error keeps all that |
| PayloadSenders.ChunksMakeUpBody | src/network/IPayloadSender.cpp:104-142 | for every positive limit the chunks concatenate to the body, the empty one included |
| PayloadSenders.ChunksWithinLimit | src/network/IPayloadSender.cpp:106-110 | no chunk exceeds the limit and only an empty body has an empty chunk |
| PayloadSenders.ChunksAreFull | src/network/IPayloadSender.cpp:106-110 | every chunk but the last is as long as the limit |
| PayloadSenders.SendToIdle | src/network/IPayloadSender.cpp:31-41 | a send on an idle sender starts the one chain, and the stream gains exactly its frame |
| PayloadSenders.SendToBusy | src/network/IPayloadSender.cpp:36-37 | a guarded send on a busy one only queues, and the stream gains exactly its frame |
| PayloadSenders.WrittenKeepsSingleChain | src/network/IPayloadSender.cpp:67-142 | each completed write keeps: written bytes and what the chain has still to write are the frames of the accepted payloads, one chain is active, the traces agree, and the queue is not popped when empty |
| PayloadSenders.LastChunkLogged | src/network/IPayloadSender.cpp:131-140 | finishing a payload commits its trace with all its bytes booked and opens the next |
| PayloadSenders.FailureBreaks | src/network/IPayloadSender.cpp:43-52 | after a failed write the socket holds a prefix of the right stream and the books are straight |
| PayloadSenders.BrokenStaysBroken | src/network/IPayloadSender.cpp:31-52 | so they are after any later sends and failures |
| PayloadSenders.PayloadSender.SendPayload | src/network/IPayloadSender.cpp:31-41 | queue, then start a frame unless the guard reads true |
| PayloadSenders.PayloadSender.SendPayloadType | src/network/IPayloadSender.cpp:67-88 | the front is buffered, its trace opened with type and size, and the type write started |
| PayloadSenders.PayloadSender.OnTypeWritten | src/network/IPayloadSender.cpp:80-87 | the size write follows the type write |
| PayloadSenders.PayloadSender.OnBytesSizeWritten | src/network/IPayloadSender.cpp:90-102 | the first chunk follows the size write |
| PayloadSenders.PayloadSender.SendPayloadBytes | src/network/IPayloadSender.cpp:104-114 | the next chunk is the smaller of what is left and the limit, in wrapping arithmetic |
| PayloadSenders.PayloadSender.OnBytesWritten | src/network/IPayloadSender.cpp:115-141 | a chunk written goes on with the next, with the next payload, or ends the chain |
| PayloadSenders.PayloadSender.OnPayloadSendError | src/network/IPayloadSender.cpp:43-52 | the chain ends, its trace is committed, offset and queue stay |
| OverlappingSends.InStepIffNoOverlap | src/network/IPayloadSender.cpp:31-41 | with the guard as written and no failing write, a run ends with one chain for the queue exactly if no send was made during a transfer |
| OverlappingSends.SurplusIsForGood | src/network/IPayloadSender.cpp:120-141 | a chain too many never goes away |
| OverlappingSends.OverlapNeverQuiesces | src/network/IPayloadSender.cpp:31-41 | a run without failing writes that comes to rest had no overlapping send, and its queue is empty |
| OverlappingSends.CompletionMakesProgress | src/network/IPayloadSender.cpp:80-141 | each completed write takes a payload off the queue or gets on with the frame it is in |
| OverlappingSends.SurplusReachesAssertion | src/network/IPayloadSender.cpp:134-140 | with a chain too many and no further send, completing writes in any order comes to one whose callback pops the empty queue |
| OverlappingSends.OverlapReachesAssertion | src/network/AtomicQueue.cpp:43-53 | so it is after any send during a transfer, whatever went before |
| OverlappingSends.SoundRun | src/network/IPayloadSender.cpp:31-142 | runs without overlapping sends keep the sender's invariant for any limit |
| OverlappingSends.QuiescentRunWroteEverything | src/network/IPayloadSender.cpp:31-142 | with the guard as written, a run that comes to rest wrote exactly the frames of the payloads sent, in order |
| PayloadReceivers.ReadKeepsReceiving | src/network/IPayloadReceiver.cpp:65-139 | each completed read keeps: the frames pushed and the partial frame are exactly the bytes read, the spawn id survives, the traces agree, and the next read is inside the body |
| PayloadReceivers.LastPiece | src/network/IPayloadReceiver.cpp:118-137 | the last piece pushes one payload whose frame is what was read, under the socket's spawn id |
| PayloadReceivers.FailureEndsReceiving | src/network/IPayloadReceiver.cpp:31-40 | a failed read ends receiving and leaves what was delivered and the traces straight |
| PayloadReceivers.PayloadReceiver.constructor | src/network/SpawnedSocket.cpp:24-27 | the spawn id is stored in the buffer all frames are read into |
| PayloadReceivers.PayloadReceiver.StartReceiving | src/network/IPayloadReceiver.cpp:55-63 | receiving starts once |
| PayloadReceivers.PayloadReceiver.OnTypeRead | src/network/IPayloadReceiver.cpp:65-82 | the type is stored, the trace opened, the size read next |
| PayloadReceivers.PayloadReceiver.OnBytesSizeRead | src/network/IPayloadReceiver.cpp:84-100 | the body is resized to the size read, the first chunk read next |
| PayloadReceivers.PayloadReceiver.OnBytesRead | src/network/IPayloadReceiver.cpp:102-139 | a chunk goes to its place; a complete payload is pushed and the next frame awaited |
| PayloadReceivers.PayloadReceiver.OnPayloadReceiveError | src/network/IPayloadReceiver.cpp:31-40 | no read is outstanding any more and the trace is committed |
| Connections.StepKeepsInvariant | src/network/IPayloadSender.cpp:31-142 | every step of either end, errors included, keeps the invariant of a connection |
| Connections.RunKeepsInvariant | src/network/IPayloadReceiver.cpp:55-139 | so does every run |
| Connections.BytesAreConserved | src/network/IPayloadSender.cpp:31-142 | delivered frames, partial frame, bytes on the wire and what is still to be written are the frames of the accepted payloads |
| Connections.DeliveredIsPrefix | src/network/IPayloadReceiver.cpp:129-137 | what is delivered is a prefix of what was sent, type and body intact, under one spawn id |
| Connections.DrainedDeliveredEverything | src/network/IPayloadReceiver.cpp:129-137 | and all of it when nothing is under way |
| Connections.TransportIsFaithful | src/network/IPayloadReceiver.cpp:55-139 | both over every run from a new connection, whatever the two chunk limits |
| Connections.TracesAreStraight | src/network/PayloadLogger.cpp:26-54 | on both ends, errors included, committed ids are 1 to n in order and at most one payload is open; trace i has the type of the i-th payload that went through, bytes that sum to its size, and as size the sender's its size and the receiver's 0; failed attempts carry the type and size of the payload attempted |
| Connections.ReceivedSizeIsRightExactlyIfEmpty | src/network/IPayloadReceiver.cpp:70-81 | a received payload's trace has its size if and only if its body is empty |
| Connections.TracesAreStraightAfterRuns | src/network/IPayloadReceiver.cpp:31-139 | all that over every run from a new connection, whatever goes wrong in it |
| LiteralRuns.OneChainExactlyWithoutOverlap | src/network/IPayloadSender.cpp:31-41 | with the guard as written, over all runs, failing writes included, at most one write is outstanding at any time if and only if no send is made during a transfer |
| LiteralRuns.LiteralTransportIsFaithful | src/network/IPayloadSender.cpp:31-142 | for the code as written, in every run without overlapping sends, what is delivered is a prefix of what was sent, and all of it once nothing is under way |
| LiteralRuns.OverlappingCallsShift | src/network/IPayloadSender.cpp:36-142 | for every first payload with a body that fits in a chunk and every second, a run of the code as written, the writes completing in the order they were started, in which the body delivered is the type followed by the start of the body |
| LiteralRuns.OverlappingCallsCorrupt | src/network/IPayloadSender.cpp:36-40 | so what is delivered is neither payload, unless the body repeats the bytes of its type or the second payload is just that |
| LiteralRuns.MessagesAreCorrupted | src/network/IClientImpl.cpp:27-51 | so it is for any two heartbeats or handshakes |
| Servers.StepKeepsInvariant | src/network/Server.cpp:35-67 | connections, accepts, failed accepts, transfers, drains and processing keep the invariant of the system |
| Servers.ConsumerConserves | src/network/IPayloadProcessor.cpp:33-47 | draining and processing lose, repeat and reorder nothing |
| Servers.ProcessedIsPrefixOfSent | src/network/SpawnedSocket.cpp:24-27 | what was processed under an id is a prefix of what that client sent |
| Servers.QuietServerProcessedEverything | src/network/IPayloadProcessor.cpp:33-47 | and all of it when everything is quiet |
| Servers.SpawnIdIsTurn | src/network/Server.cpp:36-58 | over every run, a client gets as spawn id, also in what its receiver pushes, how often the accept callback has been called by then, failed calls included |
| Servers.BreakIsFinal | src/network/IPayloadProcessor.cpp:41-42 | the payload a break is returned for is the last one processed and the rest of its batch is lost, whatever run follows |
| Servers.ServerIsFaithful | src/network/Server.cpp:35-67 | over every run with any number of clients: distinct ids, every processed payload from an accepted client, prefixes per client, everything once quiet |
| Servers.Server.OnAccept | src/network/Server.cpp:36-66 | the accept callback takes the step of the system: the count goes up even on an error; otherwise a socket with a fresh id is added and starts receiving into the shared queue |
| Servers.Server.SocketsHaveOwnIds | src/network/Server.cpp:37-58 | in a state that runs lead to each socket has an id of its own, and all feed the one queue |
| Hover.CheckAgreesWithSearch | src/app/widgets/base/Container.hpp:79-113 | for every tree, flags and cached pointers, stale ones included, the traversal returns what the plain first-hit search does |
| Hover.CheckFrame | src/app/widgets/base/Container.hpp:79-113 | a traversal touches no flag or cached pointer outside its subtree |
| Hover.HitIsInFirstChild | src/app/widgets/base/Container.hpp:97-104 | the plain search goes into the first child that contains the cursor, and stays at the container if none does |
| HoverRuns.FlagsArePathExactlyIfFresh | src/app/widgets/base/Container.hpp:79-122 | from the state settled for any cursor, the flags after a move are the path of the search if and only if the move is fresh, and so is the state settled for the new cursor |
| HoverRuns.QuietSettles | src/app/widgets/base/Container.hpp:86-112 | from a subtree with nothing set the traversal settles it, whatever the geometry |
| HoverRuns.FreshSettles | src/app/widgets/base/Container.hpp:79-122 | a fresh move settles the tree for the new cursor |
| HoverRuns.NotFreshStrays | src/app/widgets/base/Container.hpp:80-98 | any other leaves a widget flagged that is not on the path |
| HoverRuns.SettledShowsPath | src/app/widgets/base/Container.hpp:49-52 | in a settled state the flags are the path to the deepest widget and the cached pointers spell it |
| HoverRuns.PathEndsAtHit | src/app/widgets/base/Container.hpp:78-79 | that path ends at what the search returns |
| HoverLayouts.FlagsArePathThroughoutExactlyIfFresh | src/app/widgets/base/Container.hpp:79-122 | for every tree and every run of moves, over any geometry, the flags are the path after each move if and only if each move is fresh |
| HoverLayouts.FreshRunShowsPath | src/app/widgets/base/Container.hpp:79-122 | after fresh moves following the cached pointers spells the path, too |
| HoverLayouts.LaidOutIsNested | src/app/widgets/base/Hoverable.hpp:81-83 | children inside their parent and siblings apart mean at most one child of each container under the cursor |
| HoverLayouts.NestedIsFresh | src/app/widgets/base/Container.hpp:79-113 | then every move is fresh |
| HoverLayouts.FlagsArePathOverLayouts | src/app/widgets/base/Container.hpp:79-122 | so over such layouts, which may change between moves, flags and cached pointers are always the path |
| HoverLayouts.PanelStaysFlaggedOverButton | src/app/USApplication.cpp:147-148 | two moves, with geometry, that leave a panel and the button before it flagged |
| Widgets.Widget.CheckIfMouseOver | src/app/widgets/base/Container.hpp:79-113 | the recursive method changes flags and pointers of the widgets as the traversal says and returns its hit |
| Widgets.Widget.CheckCachedChild | src/app/widgets/base/Container.hpp:80-84 | the cached child, if any and not the container, is checked first |
| Widgets.Widget.ScanInnerShapes | src/app/widgets/base/Container.hpp:94-112 | the loop over the children, with its early return on the cached one |
| Widgets.Widget.CheckGeometry | src/app/widgets/base/Hoverable.hpp:81-96 | the flag becomes whether the geometry contains the cursor |
| Widgets.Widget.UpdateLatestHoveredShape | src/app/widgets/base/Container.hpp:119-127 | the cached pointer becomes the argument, no other changes |
| Widgets.Widget.PushContaining | src/app/widgets/base/Container.hpp:59-62 | the child comes last, points back to its parent, and the tree stays a tree |
| AppContainers.ParentIsNextOnPath | src/app/widgets/base/AppContainer.hpp:123-128 | the parent pointer of a widget is the widget before it on its path from the root |
| AppContainers.NearestIsDeepestHandler | src/app/widgets/base/AppContainer.hpp:123-128 | bubbling along a path finds its deepest handler, or none if there is none |
| AppContainers.LockIsDeepestAtLatestPress | src/app/widgets/base/AppContainer.hpp:53-106 | over any events the lock is the widget hovered deepest at the latest press if no release followed, else null |
| AppContainers.NoButtonNoLock | src/app/widgets/base/AppContainer.hpp:121 | without a button event there is no lock |
| AppContainers.DeepestIsLatestHit | src/app/widgets/base/AppContainer.hpp:112-118 | the widget hovered deepest is what the latest move found |
| AppContainers.RoutingIsSearched | src/app/widgets/base/AppContainer.hpp:53-118 | over any events, with traversals from any flags and pointers, the routing is that of the plain search |
| AppContainers.LockIsHitBeforePress | src/app/widgets/base/AppContainer.hpp:53-118 | if no release followed the latest press, the lock is what the plain search finds for the latest move before that press, null if there was none |
| AppContainers.LockIsNullWithoutPress | src/app/widgets/base/AppContainer.hpp:86-106 | otherwise it is null, whichever button was released |
| AppContainers.AppContainer.PropagateMousePressEvent | src/app/widgets/base/AppContainer.hpp:53-73 | the press locks onto the widget hovered deepest and only it may handle the event |
| AppContainers.AppContainer.PropagateMouseMoveEvent | src/app/widgets/base/AppContainer.hpp:75-84 | the move finds what the plain search does and only the lock may handle the event |
| AppContainers.AppContainer.PropagateMouseReleaseEvent | src/app/widgets/base/AppContainer.hpp:86-106 | the old lock may handle the event, then there is none |
| AppContainers.AppContainer.PropagateScrollEvent | src/app/widgets/base/AppContainer.hpp:49-51 | a scroll reaches the nearest handler among the widget hovered deepest and its ancestors, if any |
| AppContainers.AppContainer.PropagateEvent | src/app/widgets/base/AppContainer.hpp:123-128 | bubbling ends and reaches the nearest handler on the path to the root |
| LazyRegex.MatchIsMatch | src/core/UpdateChecker.hpp:79 | what the matcher returns is a match |
| LazyRegex.MatchIsFirst | src/core/UpdateChecker.hpp:79 | it misses no match, and returns the one whose lazy parts are shortest from left to right |
| LazyRegex.MatchIsScan | src/core/UpdateChecker.hpp:79 | for expressions that alternate lazy parts and one-line literals it is the scan from first occurrence to first occurrence |
| Manifests.ScanIsExpression | src/core/UpdateChecker.hpp:79 | the expression matches at a position exactly where the scan for the four tags succeeds, with the same groups and suffix |
| ManifestEntries.SearchShrinks | src/core/UpdateChecker.hpp:85-114 | each search leaves a shorter suffix, so the loop ends |
| ManifestEntries.SearchOnEntry | src/core/UpdateChecker.hpp:84-85 | a clean entry is found whole if it is on one line; otherwise the search goes on behind it |
| ManifestEntries.MissingVersionTakesNext | src/core/UpdateChecker.hpp:79 | a name without a version takes that of the next entry on its line, whose own name goes unread |
| ManifestEntries.ExtractRecords | src/core/UpdateChecker.hpp:84-116 | on a sequence of clean entries the loop records exactly the named ones on one line |
| ManifestEntries.ManifestHoldsLastVersions | src/core/UpdateChecker.hpp:67-120 | the map holds exactly those names, each with its last version |
| ManifestEntries.PlainManifestHoldsLastVersions | src/core/UpdateChecker.hpp:67-120 | read off the raw text: a manifest without line feeds holds the last version of each named entry that is on one line, and nothing else |
| ManifestEntries.WrittenOutManifest | src/core/UpdateChecker.hpp:67-120 | a name and a version written out on lines of their own give the map of just that name and version, letter by letter |
| ManifestLines.MatchPosition | src/core/UpdateChecker.hpp:84-85 | a search finds the leftmost position where the expression matches |
| ManifestLines.EveryLineIsEntries | src/core/UpdateChecker.hpp:79-116 | any text on one line is a sequence of clean entries and a rest without a match |
| ManifestLines.SearchGoesByLine | src/core/UpdateChecker.hpp:79-85 | a search finds what it would on the first line alone, and otherwise goes on behind the carriage return |
| ManifestLines.ExtractGoesByLine | src/core/UpdateChecker.hpp:84-116 | so the loop records the lines one by one |
| ManifestLines.ManifestHoldsLastVersionsOfLines | src/core/UpdateChecker.hpp:67-120 | for every manifest the map holds exactly the names of the entries of its lines, each with its last version |
| ManifestLines.EveryManifestIsEntries | src/core/UpdateChecker.hpp:67-116 | and every manifest has such entries |
| ManifestLines.ManifestWithoutReturnsHoldsLastVersions | src/core/UpdateChecker.hpp:67-120 | one without a carriage return is a single line |
| LineFeeds.RemoveNewlines | src/core/UpdateChecker.hpp:68-76 | the result is the characters at the places that hold no line feed, all of them and in order |
| LineFeeds.StripAround | src/core/UpdateChecker.hpp:68-76 | of two texts around a line feed it leaves what it leaves of each, and nothing of the line feed |
| LineFeeds.NothingToStrip | src/core/UpdateChecker.hpp:68-76 | a text comes back unchanged if and only if it has no line feed |
| ManifestEntries.StoreGroups | src/core/UpdateChecker.hpp:86-111 | the version is stored under the name, and nothing is when the name is empty |
| ManifestEntries.ExtractVersionsFromManifest | src/core/UpdateChecker.hpp:67-120 | the loop computes the map the lemmas are about |
| UpdateDecisions.LessIsTotal | src/core/UpdateChecker.hpp:122-124 | of two different versions one is older |
| UpdateDecisions.LessIsTransitive | src/core/UpdateChecker.hpp:122-124 | older than older is older |
| UpdateDecisions.LessIsIrreflexive | src/core/UpdateChecker.hpp:122-124 | no version is older than itself |
| VersionOrders.SameLengthIsNumeric | src/core/UpdateChecker.hpp:122-124 | numerals of the same length are ordered as numbers |
| VersionOrders.OrderIsNumericExactly | src/core/UpdateChecker.hpp:122-124 | for dotted versions the order is that of the numbers if and only if, at the first number that differs, the one with fewer digits is also the smaller string |
| VersionOrders.TenComesBeforeNine | src/core/UpdateChecker.hpp:122-124 | version 10 counts as older than version 9 |
| UpdateDecisions.CompareComponents | src/core/UpdateChecker.hpp:189-220 | the erasing loop answers no exactly if the names are the same and no local version is older, in whatever order it visits them |
| UpdateDecisions.IsNewerVersionAvailable | src/core/UpdateChecker.hpp:171-221 | an update is reported exactly if both manifests hold versions and the local ones are not up to date |
| UpdateDecisions.MutuallyUpToDateIsEqual | src/core/UpdateChecker.hpp:189-220 | two sides that find each other up to date carry the same versions |
| UpdateDecisions.UpdateAfterOneChange | src/core/UpdateChecker.hpp:189-220 | from equal sides, a component added or removed on one always calls for an update, and a changed version does unless it counts as older |
| UpdateDecisions.UpToDateIsTransitive | src/core/UpdateChecker.hpp:189-220 | being up to date is transitive |
| Zoom.StepKeepsScaleOk | src/app/widgets/navigation/MapScaleHelper.hpp:57-174 | each zoom, reset, translation and frame keeps the scale uniform and in range, with both ends of a playing zoom |
| Zoom.ScaleStaysInRange | src/app/widgets/navigation/MapScaleHelper.hpp:102-136 | so over every run from the start: between 1/32 and 32 |
| Zoom.KeyPadZoomsUndoEachOther | src/app/widgets/navigation/MapScaleHelper.hpp:125-154 | zooming in and out again gives the world back if and only if the maximum did not cut the first step short, and the other way round with the minimum |
| Zoom.InstantZoomRescales | src/app/widgets/navigation/MapScaleHelper.hpp:147-154 | a keypad zoom doubles or halves the scale within limits and keeps the centre of the view where it is |
| Zoom.FrameMovesCentre | src/app/widgets/navigation/MapScaleHelper.hpp:156-174 | a frame moves translation over scale by exactly what it adds to the recentring |
| Zoom.RecentringTelescopes | src/app/widgets/navigation/MapScaleHelper.hpp:106-174 | after any frames of an uninterrupted zoom translation over scale is its start value plus accuracy times the eased translation over the scale at the start |
| Zoom.FrameScheduleDoesNotMatter | src/app/widgets/animation/PlayerMatrixAnimator.hpp:55-59 | two frame schedules that reach the same progress leave the same world matrix |
| Zoom.ZoomsStart | src/app/widgets/navigation/MapScaleHelper.hpp:57-98 | wheel and snapshot zooms start in the state the two previous results need |
| ZoomViews.WheelHeadsFor | src/app/widgets/navigation/MapScaleHelper.hpp:75-98 | up heads for twice the scale, 32 at most, with the cursor as translation and half accuracy; down for half of it, 1/32 at least, without translation; no direction does nothing |
| ZoomViews.SnapshotHeadsFor | src/app/widgets/navigation/MapScaleHelper.hpp:57-73 | a snapshot heads for the scale that makes the rectangle one high, within limits, and for its centre |
| ZoomViews.ZoomArrives | src/app/widgets/navigation/MapScaleHelper.hpp:106-174 | once a frame at progress 1 is applied, the scale is the one headed for and translation over scale has moved by the whole recentring |
| ZoomViews.ViewAfterZoom | src/app/widgets/navigation/MapScaleHelper.hpp:106-174 | then every point of the world is seen where it was, moved by accuracy times the recentring and spread from the middle in the ratio of the scales |
| ZoomViews.TranslatedWhileZooming | src/app/widgets/navigation/MapScaleHelper.hpp:156-174 | moving the camera during a zoom moves what is seen in the end by as much, spread in the same ratio |
| ZoomViews.SnapshotFitsRectangle | src/app/widgets/navigation/MapScaleHelper.hpp:57-73 | a snapshot within limits ends with the middle of the rectangle in the middle of the view and all distances divided by its height |
| ZoomViews.WheelEndsAt | src/app/widgets/navigation/MapScaleHelper.hpp:75-98 | a wheel zoom ends at twice or half the scale within limits; down keeps the middle of the view, up first moves the view by half the cursor |
| ZoomViews.StopsForGood | src/app/widgets/navigation/MapScaleHelper.hpp:147-154 | after a keypad zoom, a reset or the last frame of a player, no further frame changes the world |
| Zoom.MapScaleHelper.UpdateAnimationAndPlay | src/app/widgets/animation/PlayerMatrixAnimator.hpp:80-85 | ends set, current value blanked, previous value kept, playing |
| Zoom.MapScaleHelper.MouseScrollEvent | src/app/widgets/navigation/MapScaleHelper.hpp:75-98 | a wheel zoom heads for twice or half the scale within limits, and recentres only when zooming in |
| Zoom.MapScaleHelper.SnapshotZoomTo | src/app/widgets/navigation/MapScaleHelper.hpp:57-73 | a snapshot zoom heads for the scale that fits the rectangle and for its centre |
| Zoom.MapScaleHelper.KeyPadZoom | src/app/widgets/navigation/MapScaleHelper.hpp:147-154 | a keypad zoom stops any animation and scales at once |
| Zoom.MapScaleHelper.Advance | src/app/widgets/navigation/MapScaleHelper.hpp:106-174 | a frame computes scale and translation and applies them unless the player has just ended |
| AccelerationWindow.KeptExactlyWhenRecent | src/app/widgets/navigation/MouseMovements.hpp:133-152 | past 200 ms a move is kept exactly if less time has passed since it than the largest running total within 200 ms |
| AccelerationWindow.LimitIsLargest | src/app/widgets/navigation/MouseMovements.hpp:133-137 | that limit is a running total, within 200 ms, and the largest such |
| AccelerationWindow.EmptyExactlyWhenLate | src/app/widgets/navigation/MouseMovements.hpp:65-68 | some time after the last move, past 200 ms in all, nothing is kept if and only if that time has reached the limit |
| AccelerationWindow.ReleaseCarriesNothingExactly | src/app/widgets/navigation/MouseMovements.hpp:65-131 | a release carries nothing on if and only if there was no move, no time has passed, it comes too late in that sense, or the moves kept cancel out |
| AccelerationWindow.EmptyExactlyAfterLateMove | src/app/widgets/navigation/MouseMovements.hpp:102-114 | right after a move, past 200 ms in all, nothing is kept if and only if the limit is 0, that is if some move came more than 200 ms after others that took no time |
| AccelerationWindow.MouseMovements.BufferSpansThreshold | src/app/widgets/navigation/MouseMovements.hpp:133-152 | after every move the sums are those of the buffer, credits are not negative, time less credits is at most 200, and time less the oldest sample's is at most 200, below 200 once the drag has passed 200 |
| AccelerationWindow.ReleaseIsDamped | src/app/widgets/navigation/MouseMovements.hpp:116-131 | the release carries the sum of moves on by a factor f with f * f * ms * 10000 = 200 * n * n, n being the number of samples up to 100; so 200 is reached if and only if there are 100 |
| AccelerationWindow.ReleaseCarriesKeptMoves | src/app/widgets/navigation/MouseMovements.hpp:65-78 | after any moves a release carries on the sum of those that count, damped by their number and by the time since the move before the first of them |
| AccelerationWindow.PopKeeps | src/app/widgets/navigation/MouseMovements.hpp:140-150 | dropping the oldest sample keeps sums and credits right |
| AccelerationWindow.StoppedAtWindow | src/app/widgets/navigation/MouseMovements.hpp:143-144 | where the loop stops, the buffer is the window |
| AccelerationWindow.AddKeeps | src/app/widgets/navigation/MouseMovements.hpp:48-59 | adding a move keeps sums and credits right, across the threshold too |
| AccelerationWindow.MouseMovements.AddToAccelerationBuffer | src/app/widgets/navigation/MouseMovements.hpp:48-59 | the buffer is the window of all moves since the last reset |
| AccelerationWindow.MouseMovements.UpdateAccelerationTime | src/app/widgets/navigation/MouseMovements.hpp:102-114 | the first move takes no time, any other the milliseconds since the last |
| AccelerationWindow.MouseMovements.PopOutdated | src/app/widgets/navigation/MouseMovements.hpp:139-150 | the loop stops at a sample longer than the credits or at none, sums and credits right |
| AccelerationWindow.MouseMovements.MayReduceAccelerationBuffer | src/app/widgets/navigation/MouseMovements.hpp:133-152 | past the threshold exactly the window is left, before it everything |
| AccelerationWindow.MouseMovements.ComputeAccelerationBuffer | src/app/widgets/navigation/MouseMovements.hpp:65-78 | a release yields the sum of the window, damped by its length and number of samples, and resets |
| AccelerationWindow.MouseMovements.ResetAccelerationBuffer | src/app/widgets/navigation/MouseMovements.hpp:80-88 | everything but the time of the last move starts afresh |
| AccelerationWindow.MouseMovements.StopAnim | src/app/widgets/navigation/MouseMoveHelper.hpp:37-40 | the buffer is reset only if time has passed since its first move |
| Keyboards.DirectionIsLatestHeldKey | src/app/widgets/navigation/KeyboardMovements.hpp:72-114 | after any presses, releases, resets and frames each axis goes where its latest key still held points, nowhere if none is |
| Keyboards.PressRefines | src/app/widgets/navigation/KeyboardMovements.hpp:72-114 | a press on flags and bits is a press on the ordered list of held keys |
| Keyboards.ReleaseRefines | src/app/widgets/navigation/KeyboardMovements.hpp:72-114 | so is a release, of a key not known to be held too |
| Keyboards.SpeedStaysBounded | src/app/widgets/navigation/KeyboardMoveHelper.hpp:62-104 | over every run time is between 0 and 0.4 and speed between 0 and 1.5 |
| Keyboards.CoastingEnds | src/app/widgets/navigation/KeyboardMoveHelper.hpp:77-87 | a released axis is at rest exactly when the frames add up to the time it had left |
| Keyboards.CoastingIsBounded | src/app/widgets/navigation/KeyboardMoveHelper.hpp:77-104 | for any frames the distance is at most the area under the speed curve between the two times, so at most 0.15 |
| Keyboards.CoastingGoesAlongMomentum | src/app/widgets/navigation/KeyboardMoveHelper.hpp:90-94 | and goes along the direction held last |
| Keyboards.ReleasedAxisMovesLittle | src/app/widgets/navigation/KeyboardMoveHelper.hpp:62-104 | however an axis came to be released, it moves the world by at most 0.15 from then on |
| KeyboardTravels.HoldingGoesAlongDirection | src/app/widgets/navigation/KeyboardMoveHelper.hpp:90-94 | over any frames while a key is held the whole displacement is a distance along the direction |
| KeyboardTravels.HoldingDistance | src/app/widgets/navigation/KeyboardMoveHelper.hpp:62-104 | that distance is at most 1.5 times the time and falls short of it by at most 0.15, less the further the acceleration has come; it is positive once time passes |
| KeyboardTravels.FullSpeed | src/app/widgets/navigation/KeyboardMoveHelper.hpp:72-74 | at full speed it is just 1.5 times the time |
| KeyboardTravels.HeldAxisMoves | src/app/widgets/navigation/KeyboardMoveHelper.hpp:62-104 | after any run, while keys of an axis are held, the world moves where the latest of them points, by such a distance |
| KeyboardTravels.KeysKeepTime | src/app/widgets/navigation/KeyboardMovements.hpp:38-47 | key events change neither speed nor time passed |
| KeyboardTravels.ReleaseKeepsGoing | src/app/widgets/navigation/KeyboardMovements.hpp:44-47 | after any run, the release that lets go of an axis leaves it coasting where the latest held key pointed, with the time it had |
| KeyboardTravels.CoastingIsNearArea | src/app/widgets/navigation/KeyboardMoveHelper.hpp:77-104 | coasting falls short of the area under the speed curve by at most the longest frame times the speed lost |
| KeyboardTravels.FullSpeedCoasts | src/app/widgets/navigation/KeyboardMoveHelper.hpp:77-104 | let go at full speed an axis goes on for between 0.15 less 1.5 times the longest frame, and 0.15 |
| Easings.CubicOutMonotone | src/app/widgets/navigation/KeyboardMoveHelper.hpp:96-104 | the curve of acceleration rises from 0 to 1 |
| Easings.EasingsMirror | src/app/widgets/navigation/KeyboardMoveHelper.hpp:96-104 | acceleration and deceleration are one curve, turned about its middle |
| Easings.CubicInIsCubic | src/app/widgets/navigation/KeyboardMoveHelper.hpp:96-104 | which scales with the cube of its argument |
| Keyboards.AxisMomentum.GoBy | src/app/widgets/navigation/KeyboardMovements.hpp:38-41 | the direction is the axis one way or the other, the rest stays |
| Keyboards.AxisMomentum.DefineMomentum | src/app/widgets/navigation/KeyboardMovements.hpp:44-47 | the direction becomes the momentum |
| Keyboards.KeyboardMovements.AckMovement | src/app/widgets/navigation/KeyboardMovements.hpp:72-100 | a key sets its flag and its axis' bit; other keys do nothing and are not movements |
| Keyboards.KeyboardMovements.UpdateMomentum | src/app/widgets/navigation/KeyboardMovements.hpp:102-114 | only the key's axis is redirected |
| Keyboards.KeyboardMoveHelper.HandleKey | src/app/widgets/navigation/KeyboardMoveHelper.hpp:106-120 | repeated events are ignored, others take the step of the run |
| Keyboards.KeyboardMoveHelper.StopAnim | src/app/widgets/navigation/KeyboardMoveHelper.hpp:39-43 | no key held, both axes still |
| Keyboards.KeyboardMoveHelper.ConsiderAxis | src/app/widgets/navigation/KeyboardMoveHelper.hpp:62-88 | one frame of one axis, and what it adds to the world's translation |
| Keyboards.KeyboardMoveHelper.UpdateSpeed | src/app/widgets/navigation/KeyboardMoveHelper.hpp:96-104 | speed by time, on the curve of acceleration or deceleration |
| Keyboards.KeyboardMoveHelper.UpdateMatrix | src/app/widgets/navigation/KeyboardMoveHelper.hpp:90-94 | the world moves by direction times speed times duration |
| Keyboards.KeyboardMoveHelper.Advance | src/app/widgets/navigation/KeyboardMoveHelper.hpp:45-48 | a frame of both axes takes the step of the run |
| Scrolls.ScrollingStaysInStep | src/app/widgets/scroll/Scissorable.cpp:56-90 | from any panel with something to scroll, over any wheel scrolls, drags and frames: once there was a scroll the content is in bounds and the handle heads for the same share of its track; once there was a drag, or if so at the start, neither is shown outside |
| Scrolls.NewPanelScrolls | src/app/widgets/scroll/Scissorable.cpp:39-50 | so from a new panel, whatever its uninitialised animations hold, once its content is larger than its canvas |
| Scrolls.ScrollMakesTargetsAgree | src/app/widgets/scroll/Scissorable.cpp:67-90 | a single scroll from any state makes both head for the same place within bounds, and a drag puts both there |
| Scrolls.DragMovesHandleByTick | src/app/widgets/scroll/ScrollerHandle.cpp:96-108 | a drag puts the handle at once at the place it was heading for less the tick, kept in the track, and its target moves by exactly the tick if and only if that is inside |
| Scrolls.DragMovesShownHandleExactly | src/app/widgets/scroll/ScrollerHandle.cpp:40-44 | for a place inside the track the handle moves on the screen by the tick if and only if it was shown where it was heading; in any case it is then shown where the content is |
| Scrolls.DragsAddUp | src/app/widgets/scroll/ScrollerHandle.cpp:96-108 | two drags are one by both moves unless the first hits an end |
| Scrolls.HandleFillsPlaceholder | src/app/widgets/scroll/Scroller.cpp:79-84 | a resized handle and its gap make up the placeholder, in the ratio of canvas to content |
| Scrolls.WheelTurnsBack | src/app/widgets/scroll/Scissorable.cpp:56-77 | the wheel moves content and handle the way it is turned, and turning it back restores the position if and only if nothing was cut off or the position was at the other end |
| Scrolls.PositionGoesNegative | src/app/widgets/scroll/Scissorable.cpp:68-77 | the position becomes negative if and only if the content is smaller than the canvas and the scroll does not aim above the top |
| Scrolls.WheelStartsFromShownExactly | src/app/widgets/scroll/Scrollable.hpp:53-60 | over every run, a wheel event animates from what is shown if and only if the last event that changed the animation was an applied frame or a drag, or the value left unshown is the one shown |
| Scrolls.SecondWheelStartsOver | src/app/widgets/animation/PlayerMatrixAnimator.hpp:80-85 | a second wheel event before the next frame animates from the top |
| ScrollFrames.FramesGoToTarget | src/app/widgets/animation/PlayerMatrixAnimator.hpp:102-108 | over frames of ascending progress what is shown goes from start to target without turning back, and is there at progress 1 |
| ScrollFrames.WayAtProgress | src/app/widgets/animation/PlayerMatrixAnimator.hpp:102-108 | at progress t the cube of 1 - t is left of the way |
| ScrollFrames.EndedStays | src/app/widgets/animation/PlayerMatrixAnimator.hpp:55-59 | the last frame of a player is not shown, and no frame is after it |
| ScrollFrames.FramesInterleave | src/app/widgets/animation/PlayerMatrixAnimator.hpp:55-59 | content and handle are animated independently however their frames interleave |
| ScrollFrames.WheelArrives | src/app/widgets/scroll/Scrollable.hpp:53-60 | after a wheel event, once a frame at progress 1 is applied to each, the content is shown where it was scrolled to and the handle at the same share |
| ScrollFrames.WheelMovesByOffset | src/app/widgets/scroll/Scissorable.cpp:56-77 | the wheel moves the position by minus its offset, or to the end it would pass |
| ScrollFrames.DragStays | src/app/widgets/scroll/ScrollerHandle.cpp:40-44 | after a drag content and handle are shown at the same share, whatever frames still come in |
| ScrollFrames.DragAcrossWindow | src/app/widgets/scroll/ScrollerHandle.cpp:96-108 | a drag over the height of the window has a tick of 2, the height of the view |
| ScrollFrames.SmallContentKeepsHandle | src/app/widgets/scroll/Scroller.cpp:79-81 | content that is not larger than its canvas leaves the handle as it was |
| Scrolls.ScrollAnimator.UpdateAnimationAndPlay | src/app/widgets/animation/PlayerMatrixAnimator.hpp:80-85 | ends set, current value blanked, playing |
| Scrolls.ScrollAnimator.AnimateScrollByTr | src/app/widgets/scroll/Scrollable.hpp:53-56 | an animation from the current value |
| Scrolls.ScrollAnimator.SetAnimationKeyframe | src/app/widgets/animation/PlayerMatrixAnimator.hpp:87-92 | stopped, all values at the keyframe, matrix not yet |
| Scrolls.ScrollAnimator.Advance | src/app/widgets/animation/PlayerMatrixAnimator.hpp:55-59 | a frame interpolates and shows the value unless the player has just ended |
| Scrolls.ScrollerHandle.AnimateByPercentage | src/app/widgets/scroll/ScrollerHandle.cpp:35-38 | the handle heads for its share of the gap, downwards |
| Scrolls.ScrollerHandle.InplaceByPercentage | src/app/widgets/scroll/ScrollerHandle.cpp:40-44 | or is there at once |
| Scrolls.ScrollerHandle.UpdateSize | src/app/widgets/scroll/ScrollerHandle.cpp:47-57 | size and gap are taken over |
| Scrolls.Scroller.OnContentRatioChanged | src/app/widgets/scroll/Scroller.cpp:64-85 | the handle is resized only if the content is larger than the canvas |
| Scrolls.ScrollablePanel.ScrollContentChanged | src/app/widgets/scroll/Scissorable.cpp:43-50 | the content size and, through the ratio, the handle change; the scroll position does not |
| Scrolls.ScrollablePanel.ScrollByContentSize | src/app/widgets/scroll/Scissorable.cpp:67-90 | the position moves by the tick within bounds and the share of the way is returned |
| Scrolls.ScrollablePanel.HandleScrollEvent | src/app/widgets/scroll/ScrollablePanel.cpp:67-71 | content and handle are animated to the same share |
| Scrolls.ScrollablePanel.ScrollFromHandle | src/app/widgets/scroll/ScrollablePanel.cpp:73-76 | content and handle are put at the same share at once |
| Scrolls.ScrollablePanel.HandleLockMoveEvent | src/app/widgets/scroll/ScrollerHandle.cpp:96-108 | no move, no scroll; else the content scrolls by the handle's share |

## Left out

- Connections.TransportIsFaithful: assumes the guard of `_sendPayload` does what its comment says, because with the guard as written the claim fails; `LiteralRuns` has the claim for the code as written, and exactly when it can be made.
- Connections.StepKeepsInvariant: is about guarded steps, for the same reason.
- Connections.RunKeepsInvariant: is about guarded runs, for the same reason.
- Servers.StepKeepsInvariant: is about guarded steps, for the same reason.
- Servers.ServerIsFaithful: is about guarded runs, for the same reason; sends outside a transfer with the guard reading false are among them.
- PayloadSenders.SendToBusy: is about a send for which the guard reads true; for the other see `OverlappingSends`.
- PayloadSenders.BrokenStaysBroken: is about sends for which the guard reads whether a write is outstanding.
- OverlappingSends.SoundRun: is about runs without failing writes; `LiteralRuns.LiteralTransportIsFaithful` includes them.
- OverlappingSends.QuiescentRunWroteEverything: is about runs without failing writes, because after one not everything is written.
- OverlappingSends.OverlapReachesAssertion: is about runs without failing writes, because those end chains too.
- PayloadProcessors.PayloadProcessor.ProcessPayloadQueue: does not claim that a payload is ever processed, because a notification may come before the wait; nor that the consumer is started again after a break.
- ManifestEntries.ManifestHoldsLastVersions: is about manifests made of clean entries, some of which may be broken by a carriage return; `ManifestLines.ManifestHoldsLastVersionsOfLines` is about all manifests.
- HoverLayouts.FlagsArePathOverLayouts: requires disjoint siblings inside their parents; `HoverLayouts.FlagsArePathThroughoutExactlyIfFresh` does not.
- Widgets.Widget.PushContaining: fills a container before it is put into another; inserting into a container that already has a parent is not modelled, because each ancestor's subtree would change with it.
- Zoom.MapScaleHelper.Advance: takes progress and end from the player; whether the last keyframe is shown is up to it.
- Scrolls.ScrollablePanel.ScrollContentChanged: requires a content size, because the source divides by it.
- Scrolls.ScrollablePanel.ScrollByContentSize: requires content and canvas of different sizes, because the source divides by their difference; the not-a-number it gets when they are equal is not modelled.
- Scrolls.ScrollablePanel.HandleScrollEvent: requires the same, for the same reason.
- Scrolls.ScrollablePanel.ScrollFromHandle: requires the same, for the same reason.
- Scrolls.ScrollablePanel.HandleLockMoveEvent: requires the same, and a gap, which the source divides by.
- Sending before the connection is up, resolving, connecting, timers, heartbeats, and the manifest download: input and output.
- Timestamps of traces, log messages, protobuf encoding, and overflow of the `int` counters of spawn ids and trace ids.
- Mouse button state and double clicks, hover callbacks, and what handlers do with their events.
- Double-click panning and the panning animation that a release starts from the acceleration vector.
- Animators that stop each other on start (`setExcludedWhenPlaying`).
- Horizontal panels, panels on the right or at the bottom, and viewport changes while scrolled: their signs and re-clamping are written for the default panel only.
- Floating-point rounding, and comparisons with zero within a tolerance.
- Shaders, meshes, text, assets, contexts on disk, translations and packaging.
