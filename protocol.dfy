/** Values that travel between the page and the relay: the roster entry, a
    file chunk, a buffered transfer, and the events the relay emits. */
module Protocol {

  /** One byte of an ArrayBuffer. */
  newtype byte = b: int | 0 <= b < 256

  /** A roster entry; `userAgent` holds the platform label, not the raw descriptor. */
  datatype User = User(id: string, userAgent: string, fullName: string)

  /** The payload of a `sendFileChunk` event. */
  datatype FileChunkData = FileChunkData(
    targetUserId: string,
    fileData: seq<byte>,
    chunkNumber: int,
    totalChunks: int,
    fileName: string,
    fileType: string)

  /** The buffer the relay keeps for one target while chunks arrive. */
  datatype FileData = FileData(chunks: seq<seq<byte>>, fileName: string, fileType: string)

  /** The payload of a `getSenderId` event. */
  datatype FileRequest = FileRequest(targetUserId: string, name: string, size: int)

  /** `io.emit` reaches every connected socket; `io.to(id).emit` and
      `socket.emit` reach the socket (room) named `id`. */
  datatype Destination = Everyone | Socket(id: string)

  /** The events the relay sends, by name and payload. */
  datatype Payload =
    | Users(users: seq<User>)
    | SenderId(senderId: string, size: int, name: string)
    | ProgressPer(progressPer: real)
    | FileTransfer(acceptFile: bool)
    | ReceiveMessage(msg: string, senderId: string)
    | ReceiveFile(senderId: string, fileName: string, fileType: string, fileData: seq<byte>)

  datatype Emission = Emission(to: Destination, payload: Payload)

  /** `Buffer.concat`: the chunks joined in order. */
  function Flatten(chunks: seq<seq<byte>>): seq<byte>
  {
    if chunks == [] then [] else chunks[0] + Flatten(chunks[1..])
  }

  /** Concatenating one more chunk extends the result by exactly that chunk. */
  lemma {:induction false} FlattenSnoc(chunks: seq<seq<byte>>, c: seq<byte>)
    ensures Flatten(chunks + [c]) == Flatten(chunks) + c
  {
    if chunks != [] {
      assert (chunks + [c])[1..] == chunks[1..] + [c];
      FlattenSnoc(chunks[1..], c);
    }
  }

  /** The byte payloads of a run of chunk events, in order. */
  function Payloads(cs: seq<FileChunkData>): seq<seq<byte>>
  {
    seq(|cs|, i requires 0 <= i < |cs| => cs[i].fileData)
  }

  lemma PayloadsCons(cs: seq<FileChunkData>)
    requires |cs| >= 1
    ensures Payloads(cs) == [cs[0].fileData] + Payloads(cs[1..])
  {
    var pay := Payloads(cs);
    var tail := Payloads(cs[1..]);
    assert |pay| == |[cs[0].fileData] + tail|;
    forall i | 0 <= i < |pay|
      ensures pay[i] == ([cs[0].fileData] + tail)[i]
    {
      if i > 0 {
        assert cs[1..][i - 1] == cs[i];
      }
    }
  }
}
