/** A whole transfer end to end: the chunks the sender's page emits, fed in
    order through the relay's `sendFileChunk` handler. */
module Transfer {
  import opened Protocol
  import opened SendPlan
  import opened Relay

  /** Of the chunks a non-empty file is cut into, only the last meets the
      relay's reassembly trigger. */
  lemma OnlyLastChunkIsFinal(file: File, target: string, k: nat)
    requires |file.data| > 0
    requires k < |PlannedChunks(file, target)|
    ensures IsFinal(PlannedChunks(file, target)[k]) <==> k == |PlannedChunks(file, target)| - 1
  {
    PlanNumbering(file, target);
  }

  /** The headline property: a non-empty file, planned by the sender and fed
      chunk by chunk through the relay to a target with no buffer, arrives as
      exactly one `receiveFile` event to that target whose bytes are the file,
      stamped with the sending socket, and the buffers end as they started. */
  lemma SendThenRelay(buffers: map<string, FileData>, socketId: string, file: File, target: string)
    requires |file.data| > 0
    requires target !in buffers
    ensures Feed(buffers, socketId, PlannedChunks(file, target)) ==
      ChunkOutcome(buffers,
                   [Emission(Socket(target), ReceiveFile(socketId, file.name, file.fileType, file.data))])
  {
    var cs := PlannedChunks(file, target);
    PlanNumbering(file, target);
    assert NumberedRun(cs, target, 0, |cs|);
    RoundTrip(buffers, socketId, cs, target);
    PlanReassembles(file, target);
  }

  /** An empty file is never delivered: its single chunk (number 0 of 0) does
      not meet the trigger, so nothing is sent and an entry holding one empty
      chunk stays behind for the target. */
  lemma EmptyFileNeverDelivered(buffers: map<string, FileData>, socketId: string, file: File, target: string)
    requires |file.data| == 0
    requires target !in buffers
    ensures Feed(buffers, socketId, PlannedChunks(file, target)) ==
      ChunkOutcome(buffers[target := FileData([[]], file.name, file.fileType)], [])
  {
    EmptyFilePlan(file, target);
    var d := FileChunkData(target, [], 0, 0, file.name, file.fileType);
    FirstChunk(buffers, socketId, d);
    NonFinalChunk(buffers, socketId, d);
    assert PlannedChunks(file, target)[1..] == [];
  }

  /** Feeding one more chunk after a run continues from where the run left the buffers. */
  lemma {:induction false} FeedSnoc(buffers: map<string, FileData>, socketId: string,
                                    cs: seq<FileChunkData>, c: FileChunkData)
    ensures var run := Feed(buffers, socketId, cs);
      var last := ReceiveChunk(run.buffers, socketId, c);
      Feed(buffers, socketId, cs + [c]) == ChunkOutcome(last.buffers, run.emitted + last.emitted)
    decreases |cs|
  {
    if cs == [] {
      assert [] + [c] == [c];
      assert Feed(ReceiveChunk(buffers, socketId, c).buffers, socketId, [c][1..]) ==
        ChunkOutcome(ReceiveChunk(buffers, socketId, c).buffers, []);
    } else {
      var first := ReceiveChunk(buffers, socketId, cs[0]);
      assert (cs + [c])[1..] == cs[1..] + [c];
      FeedSnoc(first.buffers, socketId, cs[1..], c);
      var run := Feed(first.buffers, socketId, cs[1..]);
      var last := ReceiveChunk(run.buffers, socketId, c);
      assert first.emitted + (run.emitted + last.emitted) == (first.emitted + run.emitted) + last.emitted;
    }
  }

  /** The server's event loop handling a sender's `sendFileChunk` events one
      after another: the imperative handler composes to `Feed`. */
  method DeliverInOrder(server: RelayServer, socketId: string, cs: seq<FileChunkData>)
    requires server.Valid()
    modifies server`fileChunks, server`sent
    ensures server.Valid()
    ensures server.fileChunks == Feed(old(server.fileChunks), socketId, cs).buffers
    ensures server.sent == old(server.sent) + Feed(old(server.fileChunks), socketId, cs).emitted
  {
    var i := 0;
    while i < |cs|
      invariant 0 <= i <= |cs|
      invariant server.Valid()
      invariant server.fileChunks == Feed(old(server.fileChunks), socketId, cs[..i]).buffers
      invariant server.sent == old(server.sent) + Feed(old(server.fileChunks), socketId, cs[..i]).emitted
    {
      FeedSnoc(old(server.fileChunks), socketId, cs[..i], cs[i]);
      assert cs[..i + 1] == cs[..i] + [cs[i]];
      server.SendFileChunk(socketId, cs[i]);
      i := i + 1;
    }
    assert cs[..i] == cs;
  }

  /** A server that sends a non-empty file from one page to another peer with
      no pending buffer delivers it in one `receiveFile` and keeps no buffer. */
  method SendFileThroughServer(server: RelayServer, socketId: string, file: File, target: string)
    requires server.Valid()
    requires |file.data| > 0 && target !in server.fileChunks
    modifies server`fileChunks, server`sent
    ensures server.Valid()
    ensures server.fileChunks == old(server.fileChunks)
    ensures server.sent == old(server.sent) +
      [Emission(Socket(target), ReceiveFile(socketId, file.name, file.fileType, file.data))]
  {
    var chunks := HandleSendFile(file, target);
    SendThenRelay(server.fileChunks, socketId, file, target);
    DeliverInOrder(server, socketId, chunks);
  }
}
