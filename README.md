# ShareDrop relay and transfer logic in Dafny

This project models the logic of a peer-to-peer file-sharing app. Browsers join
one Socket.IO relay. They announce themselves, ask a peer to accept a file,
stream it in 64 KiB chunks, and exchange short text messages. The relay
(`backend/src/app.ts`) keeps a roster of connected peers and one chunk buffer
per target. It rebuilds a file when the chunk numbered `totalChunks - 1`
arrives, then forwards it. It also forwards the progress percentage and the
accept/decline answer to the socket they name. It forwards the transfer
request and text message events too, reshaped and stamped with the sender's
socket id. The model covers:

- `platform.dfy` (module `Platform`): `getPlatform`, the first-match,
  case-insensitive user-agent classifier with five labels.
- `relay.dfy` (module `Relay`): the server state (`users`, `fileChunks`) as the
  class `RelayServer`. Each socket handler is a method. A ghost log records
  every event emitted, with its destination. A pure specification
  (`ReceiveChunk`, `Feed`) describes the chunk handler.
- `send_plan.dfy` (module `SendPlan`): the sender's `handleSendFile` loop. It
  covers the chunk count, the slice bounds and the order of emission.
- `inbox.dfy` (module `Inbox`): the page's per-receiver queues of pending
  requests and messages. It covers the reducers that append to them,
  `handleFileArr`/`handleMsgArr`, which consume the heads, and `getRandomName`.
- `transfer.dfy` (module `Transfer`): the end-to-end theorem. A non-empty file,
  cut by the sender and fed in order through the relay, arrives as exactly one
  `receiveFile` holding the original bytes. The buffers return to their prior
  state. An empty file is never delivered.
- `protocol.dfy` (module `Protocol`): the shared shapes (`User`,
  `FileChunkData`, `FileData`, the emitted events) and `Buffer.concat` as
  sequence concatenation.

Modelling choices:

- Socket ids, names and texts are strings. Byte buffers are `seq<byte>`.
- Sizes and chunk numbers are unbounded integers. The progress percentage is a
  `real` that the relay passes through untouched.
- `io.emit` and `io.to(id).emit` are appends to the ghost log, with the
  destination `Everyone` or `Socket(id)`. `socket.emit` back to the connecting
  socket is `Socket(id)` too.
- The regular-expression tests use ASCII case folding. A JavaScript regular
  expression with the `i` flag and without `u` never folds a non-ASCII
  character onto an ASCII one. So for these all-ASCII patterns the folding is
  exact.
- The two page queues (`ReceivedFileType` with `files`, `ReceivedMsgType` with
  `msg`) have the same shape. They share one generic `Queue<T>` with `items`.
  `Push` and `Advance` are the shared reducers. `OnSenderId`,
  `OnReceiveMessage`, `HandleFileArr` and `HandleMsgArr` are the source's four
  operations built on them.

## Model

| member | source | states |
|---|---|---|
| `Platform.GetPlatform` | backend/src/utils/functions.ts:1-13 | the label is always one of Windows, Android, iOS, MacOS, Unknown |
| `Platform.ContainsIffOccurs` | backend/src/utils/functions.ts:2-10 | the substring search succeeds exactly when the pattern occurs at some position |
| `Platform.WindowsRule` | backend/src/utils/functions.ts:2-3 | Windows exactly when the descriptor mentions "windows" in any case, whatever else it contains |
| `Platform.AndroidRule` | backend/src/utils/functions.ts:4-5 | Android exactly when it mentions "android" and not "windows" |
| `Platform.IOSRule` | backend/src/utils/functions.ts:6-7 | iOS exactly when it mentions "iphone", "ipad" or "ipod" and neither earlier pattern, even alongside "macintosh" |
| `Platform.MacOSRule` | backend/src/utils/functions.ts:8-9 | MacOS exactly when it mentions the full string "macintosh" (not just "mac") and none of the earlier patterns |
| `Platform.UnknownRule` | backend/src/utils/functions.ts:10-11 | Unknown exactly when no pattern is mentioned |
| `Platform.CaseInsensitive` | backend/src/utils/functions.ts:2-11 | descriptors that differ only in ASCII letter case get the same label |
| `Platform.MacWithoutMacintosh` | backend/src/utils/functions.ts:8-11 | "Mac OS X" is Unknown: "mac" alone does not make MacOS |
| `Platform.WindowsDesktopExample` | backend/src/utils/functions.ts:2-3 | "Mozilla/5.0 (Windows NT 10.0)" is Windows |
| `Protocol.Flatten` | backend/src/app.ts:116-120 | `Buffer.concat` of the buffered chunks: the chunks joined in order (the definition; its laws are `Protocol.FlattenSnoc`, `SendPlan.PlanReassembles` and `Relay.FinalChunk`) |
| `Protocol.FlattenSnoc` | backend/src/app.ts:116-120 | concatenating one more buffer extends the joined bytes by exactly that buffer |
| `Relay.RelayServer.constructor` | backend/src/app.ts:54-55 | the server starts with an empty roster, no buffers and nothing sent |
| `Relay.RelayServer.Connect` | backend/src/app.ts:60-73 | a connection sends the current roster to everyone and then to the new socket, changing no state |
| `Relay.RelayServer.UserDetails` | backend/src/app.ts:63-67 | exactly one entry `{socket id, GetPlatform(userAgent), fullName}` is added at the end, earlier entries unchanged (so a repeated announce duplicates), buffers untouched, new roster broadcast |
| `Relay.RelayServer.GetSenderId` | backend/src/app.ts:76-80 | the request goes to the target with `senderId` stamped as the emitting socket; roster and buffers unchanged |
| `Relay.RelayServer.Progress` | backend/src/app.ts:83-85 | the percentage reaches the target unchanged; roster and buffers unchanged |
| `Relay.RelayServer.FileResponse` | backend/src/app.ts:88-90 | the accept/decline reaches the named sender unchanged; roster and buffers unchanged |
| `Relay.RelayServer.SendMessage` | backend/src/app.ts:93-95 | the text reaches the target with `senderId` stamped as the emitting socket; roster and buffers unchanged |
| `Relay.RelayServer.SendFileChunk` | backend/src/app.ts:97-135 | the new buffers and the events sent are those of `ReceiveChunk`; the roster is unchanged; every buffer stays non-empty |
| `Relay.RelayServer.Disconnect` | backend/src/app.ts:139-144 | the roster becomes `WithoutId(users, id)` and is broadcast; the chunk buffers are not touched |
| `Relay.ReceiveChunk` | backend/src/app.ts:97-134 | one chunk keeps every stored buffer non-empty |
| `Relay.OtherTargetsUntouched` | backend/src/app.ts:103-112 | a chunk never creates, changes or removes another target's buffer |
| `Relay.FirstChunk` | backend/src/app.ts:103-112 | the first non-final chunk for a target creates a buffer holding just that chunk, tagged with its name and type |
| `Relay.NonFinalChunk` | backend/src/app.ts:112-115 | a non-final chunk adds exactly one element at the end of its target's list, keeps the stored name and type, changes nothing else and sends nothing |
| `Relay.FinalChunk` | backend/src/app.ts:115-133 | the final chunk sends one `receiveFile` to the target carrying the buffered chunks followed by itself, joined in order, stamped with the current socket and this chunk's name and type, and removes the target's key |
| `Relay.FeedRun` | backend/src/app.ts:97-134 | chunks numbered from..total-1 fed in order onto any buffer send one file of buffered-then-new bytes and leave exactly that target's key removed |
| `Relay.Feed` | backend/src/app.ts:97-134 | a run of chunk events handled one after another, each on the buffers the previous one left (the definition; `Relay.FeedRun` and `Relay.RoundTrip` state what it yields) |
| `Relay.RoundTrip` | backend/src/app.ts:97-134 | chunks numbered 0..n-1 of n (n >= 1) to a target with no buffer send exactly one `receiveFile` whose bytes are c0 + ... + c(n-1), and the buffers end equal to their start |
| `Relay.SendersShareTargetBuffer` | backend/src/app.ts:103-112 | non-final chunks from two different sockets to one target land in one list, in arrival order |
| `Relay.ForeignFinalChunkTakesBuffer` | backend/src/app.ts:115-133 | a final chunk from any socket delivers the whole shared buffer under that socket's id |
| `Relay.WithoutId` | backend/src/app.ts:142 | the filtered roster has no entry with the id and keeps every entry with another id |
| `Relay.WithoutIdAppend` | backend/src/app.ts:142 | the filter distributes over concatenation, so survivors keep their original order |
| `Relay.WithoutUnknownId` | backend/src/app.ts:142 | removing an id no entry carries leaves the roster unchanged |
| `SendPlan.TotalChunks` | frontend/src/FileSharing.tsx:250-251 | the count is ceil(size / 65536): it covers the file, one fewer would not, and it is 0 only for an empty file |
| `SendPlan.Slice` | frontend/src/FileSharing.tsx:286-291 | a chunk is at most 64 KiB and non-empty when it starts inside the file |
| `SendPlan.PlannedChunks` | frontend/src/FileSharing.tsx:252-291 | chunk k carries slice k, number k, the common count, the target, name and type (the definition; `SendPlan.PlanNumbering`, `SendPlan.PlanBounds` and `SendPlan.PlanReassembles` state its properties) |
| `SendPlan.HandleSendFile` | frontend/src/FileSharing.tsx:249-294 | the loop emits exactly the planned chunks, in order |
| `SendPlan.PlanNumbering` | frontend/src/FileSharing.tsx:252-276 | max(1, totalChunks) chunks go out, numbered 0, 1, 2, ..., all with the same count, target, name and type |
| `SendPlan.PlanBounds` | frontend/src/FileSharing.tsx:286-291 | chunk k is bytes [k*65536, min(size, (k+1)*65536)), at most 64 KiB, non-empty for a non-empty file |
| `SendPlan.PlanPrefix` | frontend/src/FileSharing.tsx:286-291 | the first m chunks joined are the first min(size, m*65536) bytes, so consecutive chunks are contiguous |
| `SendPlan.PlanReassembles` | frontend/src/FileSharing.tsx:286-291 | all chunks joined in order give back the whole file |
| `SendPlan.EmptyFilePlan` | frontend/src/FileSharing.tsx:249-293 | an empty file still emits one chunk, number 0 of a count of 0, with no bytes |
| `Inbox.Find` | frontend/src/FileSharing.tsx:70 | `find` returns a queue of the list with the sought id, and none exactly when no queue has it |
| `Inbox.FindFirst` | frontend/src/FileSharing.tsx:70 | the queue `find` returns is the first with the sought id: no earlier queue has it |
| `Inbox.SetItems` | frontend/src/FileSharing.tsx:80 | `map` replaces the items of the queues with the id and keeps every other queue in place |
| `Inbox.RemoveQueue` | frontend/src/FileSharing.tsx:197 | `filter` on the receiver id (the definition; `Inbox.RemoveQueueFilters`, `Inbox.RemoveQueueAppend` and `Inbox.RemoveQueueCutsOne` state its meaning) |
| `Inbox.RemoveQueueAppend` | frontend/src/FileSharing.tsx:197 | the filter distributes over concatenation, so the survivors keep their relative order |
| `Inbox.RemoveQueueAbsent` | frontend/src/FileSharing.tsx:197 | filtering out an id no queue carries leaves the list unchanged |
| `Inbox.RemoveQueueCutsOne` | frontend/src/FileSharing.tsx:197 | with one queue per receiver, filtering out an id cuts exactly that receiver's queue out of the list, the rest in order |
| `Inbox.RemoveQueueFilters` | frontend/src/FileSharing.tsx:197 | `filter` keeps exactly the queues whose id differs: every survivor is from the list and has another id, and every queue with another id survives |
| `Inbox.Push` | frontend/src/FileSharing.tsx:68-82 | the shared reducer of `senderId` and `receiveMessage`: append to this receiver's queue or add the queue at the end (the definition; `Inbox.PushSpec` states its properties) |
| `Inbox.Advance` | frontend/src/FileSharing.tsx:190-201 | the shared body of `handleFileArr` and `handleMsgArr`: drop the head of a non-empty queue, remove an empty one (the definition; `Inbox.AdvanceSpec` states its properties) |
| `Inbox.PushSpec` | frontend/src/FileSharing.tsx:68-82 | appending puts the item at the end of this receiver's queue, creates the queue at the end if absent, leaves other receivers' queues and positions alone, and keeps at most one queue per receiver |
| `Inbox.AdvanceSpec` | frontend/src/FileSharing.tsx:190-201 | consuming drops the head of a non-empty queue and keeps every other queue at its index (`map`); it filters out an empty queue, the survivors keeping their order (`filter`); it changes nothing without a queue, never changes another receiver's items, and keeps uniqueness |
| `Inbox.OnSenderId` | frontend/src/FileSharing.tsx:65-83 | a request with a non-empty name and non-zero size is appended to this receiver's queue; otherwise nothing is queued; others untouched; uniqueness kept |
| `Inbox.OnReceiveMessage` | frontend/src/FileSharing.tsx:98-113 | the message `{text, senderId}` is appended to this receiver's queue; others untouched; uniqueness kept |
| `Inbox.HandleFileArr` | frontend/src/FileSharing.tsx:190-201 | the current user's request queue loses its head and stays in the list (a one-item queue becomes empty) while every other queue keeps its index; or, when already empty, it is filtered out and the rest keep their order; no queue, no change; others' items untouched; at most one queue per receiver is kept |
| `Inbox.HandleMsgArr` | frontend/src/FileSharing.tsx:229-240 | the current user's message queue loses its head and stays in the list (a one-item queue becomes empty) while every other queue keeps its index; or, when already empty, it is filtered out and the rest keep their order; no queue, no change; others' items untouched; at most one queue per receiver is kept |
| `Inbox.FirstInFirstOut` | frontend/src/FileSharing.tsx:98-113 | two messages queued then one consumed leaves the second at the head |
| `Inbox.GetRandomName` | frontend/src/FileSharing.tsx:296-303 | "Sender" exactly when the given roster is empty, "Receiver" otherwise (only these two names) |
| `Transfer.OnlyLastChunkIsFinal` | frontend/src/FileSharing.tsx:252-276 | of a non-empty file's chunks, only the last meets the relay's `chunkNumber === totalChunks - 1` trigger |
| `Transfer.SendThenRelay` | backend/src/app.ts:97-134 | a non-empty file cut by the sender and fed in order to a target with no buffer yields exactly one `receiveFile` with the original bytes, and the buffers return to their prior state |
| `Transfer.EmptyFileNeverDelivered` | frontend/src/FileSharing.tsx:249-294 | an empty file sends nothing and leaves a buffer holding one empty chunk for the target |
| `Transfer.FeedSnoc` | backend/src/app.ts:97-134 | feeding one more chunk continues from the buffers the earlier run left |
| `Transfer.DeliverInOrder` | backend/src/app.ts:97-135 | handling chunk events one by one with `SendFileChunk` gives the buffers and events that `Feed` specifies |
| `Transfer.SendFileThroughServer` | frontend/src/FileSharing.tsx:249-294 | the server, fed the sender's chunks for a non-empty file, ends with its buffers unchanged and one `receiveFile` with the file's bytes added to what it sent |

## Left out

- Express static hosting, the catch-all route, Socket.IO server construction, CORS and ping timing, `server.ts` (environment loading and `listen`), and every `console.log`: these are transport and hosting, with no state the handlers use.
- The unused module-level `senderId` in `app.ts`: nothing reads it, and the handler's local of the same name shadows it.
- Delivery itself. An emission to a socket id that is not connected reaches nobody. The model records the emission and does not model routing.
- Object-key quirks of the `fileChunks` dictionary are not modelled. These are keys such as `constructor` that a plain object already inherits. Socket ids are random and never take those names, so the map is modelled as a plain `map`.
- JavaScript's loose typing of event payloads is not modelled. `chunkNumber`, `totalChunks` and `size` are integers here, though JavaScript could send fractions or NaN. `progressPer` is any `real`.
- The sender's progress percentage, its `toFixed`/100 reset and `getFixedSize` are left out. They are floating point and presentation only. `HandleSendFile` returns only the `sendFileChunk` events. The `progress` events it sends alongside are not modelled.
- FileReader, Blob slicing and download, Notification, clipboard, `setTimeout` pacing, React effects and all rendering are left out. The FileReader callback chain is modelled only as the sequential order of chunks it produces.
- `handleReceivedMessage` and the file-queue peek effect are left out. After a 400 ms `setTimeout` they show the head of the current user's queue. When that queue exists but is empty, they call `handleFileArr`/`handleMsgArr`, and these calls are the only way an emptied queue is removed. That removal is modelled by the empty-queue case of `HandleFileArr`/`HandleMsgArr`. The timing and the head display are not modelled.
- `getName` is left out. It returns the roster `fullName` of the first sender in the list's first queue (`receivedFileArr[0]`, `receivedMsgArr[0]`) or of the selected peer, for display. The model does state the list order it reads: `PushSpec`, `AdvanceSpec` and `RemoveQueueCutsOne`.
- `setSenderUser(data)` and `setInitial(false)` in the `senderId` handler are not modelled. `OnSenderId` models only the queue update. `setSenderUser` runs on every request, including one the guard does not queue. `acceptFileResponse` and `declineFileResponse` then reply to that latest requester, which need not be the sender of the queue head on screen.
- The call site of `getRandomName` is not modelled. The `connect` handler is registered once, by an effect with no dependencies, so it reads the `users` of the first render, which is always empty. As written, every page therefore announces itself as "Sender". `GetRandomName` models the function on whatever roster it is given.
- HandleFileArr: modelled on one list value. The source finds the current user's queue in the list captured at render time, while its `map` branch updates the latest state (`prev`). A queue change that lands between render and the call is therefore not modelled.
- HandleMsgArr: modelled on one list value, for the same reason as HandleFileArr.
- `currentUser`/`socket.id` being `null` or `undefined` before a connection is not modelled. No queue carries such an id, so the operations would leave the lists unchanged.
