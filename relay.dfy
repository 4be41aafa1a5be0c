/** The relay server: the roster of connected peers, the per-target chunk
    buffers, and the socket handlers that change them one event at a time. */
module Relay {
  import opened Protocol
  import Platform

  /** What one chunk does to the buffers, and what it sends. */
  datatype ChunkOutcome = ChunkOutcome(buffers: map<string, FileData>, emitted: seq<Emission>)

  /** The chunks already buffered for `target` (none when it has no entry). */
  function Pending(buffers: map<string, FileData>, target: string): seq<seq<byte>>
  {
    if target in buffers then buffers[target].chunks else []
  }

  /** The relay's reassembly trigger: the chunk's number is one less than the count. */
  predicate IsFinal(data: FileChunkData)
  {
    data.chunkNumber == data.totalChunks - 1
  }

  /** Every buffer the relay keeps holds at least the chunk that created it. */
  ghost predicate BuffersNonEmpty(buffers: map<string, FileData>)
  {
    forall t :: t in buffers ==> |buffers[t].chunks| > 0
  }

  /** The effect of one `sendFileChunk` event from socket `socketId`. */
  function ReceiveChunk(buffers: map<string, FileData>, socketId: string, data: FileChunkData): (o: ChunkOutcome)
    ensures BuffersNonEmpty(buffers) ==> BuffersNonEmpty(o.buffers)
  {
    var target := data.targetUserId;
    var entry := if target in buffers then buffers[target] else FileData([], data.fileName, data.fileType);
    var grown := buffers[target := entry.(chunks := entry.chunks + [data.fileData])];
    if IsFinal(data) then
      ChunkOutcome(grown - {target},
                   [Emission(Socket(target), ReceiveFile(socketId, data.fileName, data.fileType, Flatten(grown[target].chunks)))])
    else
      ChunkOutcome(grown, [])
  }

  /** No chunk touches the buffer of a target other than its own. */
  lemma OtherTargetsUntouched(buffers: map<string, FileData>, socketId: string, data: FileChunkData, t: string)
    requires t != data.targetUserId
    ensures var o := ReceiveChunk(buffers, socketId, data).buffers;
      (t in o <==> t in buffers) && (t in buffers ==> o[t] == buffers[t])
  {
  }

  /** A chunk for a target with no buffer creates one tagged with this chunk's
      name and type, holding just this chunk (unless it is also the final one). */
  lemma FirstChunk(buffers: map<string, FileData>, socketId: string, data: FileChunkData)
    requires data.targetUserId !in buffers
    requires !IsFinal(data)
    ensures ReceiveChunk(buffers, socketId, data).buffers[data.targetUserId]
            == FileData([data.fileData], data.fileName, data.fileType)
  {
  }

  /** A non-final chunk grows its target's list by one at the end, keeps the
      stored name and type, and sends nothing. */
  lemma NonFinalChunk(buffers: map<string, FileData>, socketId: string, data: FileChunkData)
    requires !IsFinal(data)
    ensures var o := ReceiveChunk(buffers, socketId, data);
      && o.emitted == []
      && data.targetUserId in o.buffers
      && o.buffers == buffers[data.targetUserId := o.buffers[data.targetUserId]]
      && o.buffers[data.targetUserId].chunks == Pending(buffers, data.targetUserId) + [data.fileData]
      && (data.targetUserId in buffers ==>
            && o.buffers[data.targetUserId].fileName == buffers[data.targetUserId].fileName
            && o.buffers[data.targetUserId].fileType == buffers[data.targetUserId].fileType)
  {
  }

  /** The final chunk sends, to its target, everything buffered followed by
      itself, stamped with the current socket's id and this chunk's name and
      type, and releases the target's buffer. */
  lemma FinalChunk(buffers: map<string, FileData>, socketId: string, data: FileChunkData)
    requires IsFinal(data)
    ensures var o := ReceiveChunk(buffers, socketId, data);
      && o.buffers == buffers - {data.targetUserId}
      && o.emitted == [Emission(Socket(data.targetUserId),
                                ReceiveFile(socketId, data.fileName, data.fileType,
                                            Flatten(Pending(buffers, data.targetUserId) + [data.fileData])))]
  {
  }

  /** A run of chunk events from one socket, in order. */
  function Feed(buffers: map<string, FileData>, socketId: string, cs: seq<FileChunkData>): ChunkOutcome
    decreases |cs|
  {
    if cs == [] then ChunkOutcome(buffers, [])
    else
      var first := ReceiveChunk(buffers, socketId, cs[0]);
      var rest := Feed(first.buffers, socketId, cs[1..]);
      ChunkOutcome(rest.buffers, first.emitted + rest.emitted)
  }

  /** Chunks numbered `from`, `from + 1`, ..., `total - 1` for one target. */
  ghost predicate NumberedRun(cs: seq<FileChunkData>, target: string, from: int, total: int)
  {
    && |cs| == total - from
    && forall i :: 0 <= i < |cs| ==>
         cs[i].targetUserId == target && cs[i].chunkNumber == from + i && cs[i].totalChunks == total
  }

  /** Feeding the rest of a transfer, in order, onto whatever is buffered for
      its target sends exactly one file made of the buffered chunks followed by
      the new ones, and leaves every other buffer as it was. */
  lemma {:induction false} FeedRun(buffers: map<string, FileData>, socketId: string, cs: seq<FileChunkData>,
                                   target: string, from: int, total: int)
    requires 0 <= from < total
    requires NumberedRun(cs, target, from, total)
    ensures Feed(buffers, socketId, cs) ==
      ChunkOutcome(buffers - {target},
                   [Emission(Socket(target),
                             ReceiveFile(socketId, cs[|cs| - 1].fileName, cs[|cs| - 1].fileType,
                                         Flatten(Pending(buffers, target) + Payloads(cs))))])
    decreases |cs|
  {
    if |cs| == 1 {
      FeedLast(buffers, socketId, cs);
    } else {
      var first := ReceiveChunk(buffers, socketId, cs[0]);
      var rest := cs[1..];
      assert NumberedRun(rest, target, from + 1, total);
      NonFinalChunk(buffers, socketId, cs[0]);
      FeedRun(first.buffers, socketId, rest, target, from + 1, total);
      assert first.buffers - {target} == buffers - {target};
      assert rest[|rest| - 1] == cs[|cs| - 1];
      PendingThenRest(buffers, first.buffers, target, cs);
    }
  }

  /** A run of one chunk is its final chunk. */
  lemma FeedLast(buffers: map<string, FileData>, socketId: string, cs: seq<FileChunkData>)
    requires |cs| == 1 && IsFinal(cs[0])
    ensures Feed(buffers, socketId, cs) ==
      ChunkOutcome(buffers - {cs[0].targetUserId},
                   [Emission(Socket(cs[0].targetUserId),
                             ReceiveFile(socketId, cs[0].fileName, cs[0].fileType,
                                         Flatten(Pending(buffers, cs[0].targetUserId) + Payloads(cs))))])
  {
    FinalChunk(buffers, socketId, cs[0]);
    assert Payloads(cs) == [cs[0].fileData];
  }

  /** The bytes still to come after one appended chunk are the same bytes. */
  lemma PendingThenRest(buffers: map<string, FileData>, grown: map<string, FileData>, target: string,
                        cs: seq<FileChunkData>)
    requires |cs| >= 1
    requires Pending(grown, target) == Pending(buffers, target) + [cs[0].fileData]
    ensures Pending(grown, target) + Payloads(cs[1..]) == Pending(buffers, target) + Payloads(cs)
  {
    PayloadsCons(cs);
  }

  /** The round trip: chunks numbered 0 .. n-1 of n, sent to a target with no
      buffer, produce one `receiveFile` whose bytes are the chunks joined in
      order, and the buffers end as they started. */
  lemma RoundTrip(buffers: map<string, FileData>, socketId: string, cs: seq<FileChunkData>, target: string)
    requires |cs| >= 1
    requires NumberedRun(cs, target, 0, |cs|)
    requires target !in buffers
    ensures Feed(buffers, socketId, cs) ==
      ChunkOutcome(buffers,
                   [Emission(Socket(target),
                             ReceiveFile(socketId, cs[|cs| - 1].fileName, cs[|cs| - 1].fileType,
                                         Flatten(Payloads(cs))))])
  {
    assert Pending(buffers, target) + Payloads(cs) == Payloads(cs) by {
      assert Pending(buffers, target) == [];
    }
    assert buffers - {target} == buffers;
    FeedRun(buffers, socketId, cs, target, 0, |cs|);
  }

  /** Buffers are keyed by target only: non-final chunks from two different
      sockets to the same target land in one list, in arrival order. */
  lemma SendersShareTargetBuffer(buffers: map<string, FileData>, a: string, b: string,
                                 d1: FileChunkData, d2: FileChunkData)
    requires d1.targetUserId == d2.targetUserId
    requires !IsFinal(d1) && !IsFinal(d2)
    requires d1.targetUserId !in buffers
    ensures var o := ReceiveChunk(ReceiveChunk(buffers, a, d1).buffers, b, d2).buffers;
      o[d1.targetUserId] == FileData([d1.fileData, d2.fileData], d1.fileName, d1.fileType)
  {
  }

  /** A stray final chunk from another socket delivers the whole shared buffer,
      stamped with that other socket's id. */
  lemma ForeignFinalChunkTakesBuffer(buffers: map<string, FileData>, b: string, d: FileChunkData)
    requires IsFinal(d)
    requires d.targetUserId in buffers
    ensures ReceiveChunk(buffers, b, d).emitted ==
      [Emission(Socket(d.targetUserId),
                ReceiveFile(b, d.fileName, d.fileType, Flatten(buffers[d.targetUserId].chunks + [d.fileData])))]
  {
  }

  /** `users.filter(user => user.id !== id)`. */
  function WithoutId(users: seq<User>, id: string): (r: seq<User>)
    ensures |r| <= |users|
    ensures forall u :: u in r ==> u in users && u.id != id
    ensures forall u :: u in users && u.id != id ==> u in r
  {
    if users == [] then []
    else if users[0].id != id then [users[0]] + WithoutId(users[1..], id)
    else WithoutId(users[1..], id)
  }

  /** Filtering keeps the survivors in their original order: it distributes over concatenation. */
  lemma {:induction false} WithoutIdAppend(a: seq<User>, b: seq<User>, id: string)
    ensures WithoutId(a + b, id) == WithoutId(a, id) + WithoutId(b, id)
  {
    if a == [] {
      assert a + b == b;
    } else {
      assert (a + b)[0] == a[0];
      assert (a + b)[1..] == a[1..] + b;
      WithoutIdAppend(a[1..], b, id);
    }
  }

  /** Removing an id that no entry carries changes nothing. */
  lemma {:induction false} WithoutUnknownId(users: seq<User>, id: string)
    requires forall u :: u in users ==> u.id != id
    ensures WithoutId(users, id) == users
  {
    if users != [] {
      WithoutUnknownId(users[1..], id);
    }
  }

  /** The module-level state of the server: `users`, `fileChunks`, and a log
      of what the handlers have emitted. */
  class RelayServer {
    var users: seq<User>
    var fileChunks: map<string, FileData>
    ghost var sent: seq<Emission>

    /** Every buffered target holds at least one chunk: an entry is created
        only together with its first chunk. This is an observed invariant;
        no handler's contract depends on it. */
    ghost predicate Valid()
      reads this
    {
      BuffersNonEmpty(fileChunks)
    }

    constructor ()
      ensures Valid()
      ensures users == [] && fileChunks == map[] && sent == []
    {
      users := [];
      fileChunks := map[];
      sent := [];
    }

    /** `connection`: the roster goes to everyone, then to the new socket. */
    method Connect(socketId: string)
      modifies this`sent
      ensures users == old(users) && fileChunks == old(fileChunks)
      ensures sent == old(sent) + [Emission(Everyone, Users(users)), Emission(Socket(socketId), Users(users))]
    {
      sent := sent + [Emission(Everyone, Users(users))];
      sent := sent + [Emission(Socket(socketId), Users(users))];
    }

    /** `userDetails`: one entry, labelled by the classifier, is added at the
      end (a second announce adds a second entry), and the roster is broadcast. */
    method UserDetails(socketId: string, userAgent: string, fullName: string)
      requires Valid()
      modifies this`users, this`sent
      ensures Valid()
      ensures fileChunks == old(fileChunks)
      ensures users == old(users) + [User(socketId, Platform.GetPlatform(userAgent), fullName)]
      ensures sent == old(sent) + [Emission(Everyone, Users(users))]
    {
      var platform := Platform.GetPlatform(userAgent);
      users := users + [User(socketId, platform, fullName)];
      sent := sent + [Emission(Everyone, Users(users))];
    }

    /** `getSenderId`: the request goes to the target, stamped with the sender's id. */
    method GetSenderId(socketId: string, data: FileRequest)
      modifies this`sent
      ensures users == old(users) && fileChunks == old(fileChunks)
      ensures sent == old(sent) + [Emission(Socket(data.targetUserId), SenderId(socketId, data.size, data.name))]
    {
      sent := sent + [Emission(Socket(data.targetUserId), SenderId(socketId, data.size, data.name))];
    }

    /** `progress`: the percentage reaches the target unchanged. */
    method Progress(progressPer: real, targetUserId: string)
      modifies this`sent
      ensures users == old(users) && fileChunks == old(fileChunks)
      ensures sent == old(sent) + [Emission(Socket(targetUserId), ProgressPer(progressPer))]
    {
      sent := sent + [Emission(Socket(targetUserId), ProgressPer(progressPer))];
    }

    /** `fileResponse`: the answer reaches the original sender unchanged. */
    method FileResponse(acceptFile: bool, senderId: string)
      modifies this`sent
      ensures users == old(users) && fileChunks == old(fileChunks)
      ensures sent == old(sent) + [Emission(Socket(senderId), FileTransfer(acceptFile))]
    {
      sent := sent + [Emission(Socket(senderId), FileTransfer(acceptFile))];
    }

    /** `sendMessage`: the text reaches the target, stamped with the sender's id. */
    method SendMessage(socketId: string, msg: string, targetUserId: string)
      modifies this`sent
      ensures users == old(users) && fileChunks == old(fileChunks)
      ensures sent == old(sent) + [Emission(Socket(targetUserId), ReceiveMessage(msg, socketId))]
    {
      sent := sent + [Emission(Socket(targetUserId), ReceiveMessage(msg, socketId))];
    }

    /** `sendFileChunk`: create the target's buffer if absent, append the chunk,
      and on the final chunk send the joined bytes and delete the buffer. */
    method SendFileChunk(socketId: string, data: FileChunkData)
      requires Valid()
      modifies this`fileChunks, this`sent
      ensures Valid()
      ensures users == old(users)
      ensures fileChunks == ReceiveChunk(old(fileChunks), socketId, data).buffers
      ensures sent == old(sent) + ReceiveChunk(old(fileChunks), socketId, data).emitted
    {
      var target := data.targetUserId;
      if target !in fileChunks {
        fileChunks := fileChunks[target := FileData([], data.fileName, data.fileType)];
      }
      var entry := fileChunks[target];
      fileChunks := fileChunks[target := entry.(chunks := entry.chunks + [data.fileData])];
      if data.chunkNumber == data.totalChunks - 1 {
        var buffer := Flatten(fileChunks[target].chunks);
        sent := sent + [Emission(Socket(target), ReceiveFile(socketId, data.fileName, data.fileType, buffer))];
        fileChunks := fileChunks - {target};
      }
    }

    /** `disconnect`: every entry with this id leaves the roster, the rest keep
      their order, the roster is broadcast; the chunk buffers are not touched. */
    method Disconnect(socketId: string)
      requires Valid()
      modifies this`users, this`sent
      ensures Valid()
      ensures fileChunks == old(fileChunks)
      ensures users == WithoutId(old(users), socketId)
      ensures sent == old(sent) + [Emission(Everyone, Users(users))]
    {
      users := WithoutId(users, socketId);
      sent := sent + [Emission(Everyone, Users(users))];
    }
  }
}
