/** The sender side of a transfer: how `handleSendFile` cuts a file into
    64 KiB chunks and the order in which it emits them. */
module SendPlan {
  import opened Protocol

  const CHUNK_SIZE: nat := 64 * 1024

  /** The browser `File` being sent: its name, MIME type and bytes. */
  datatype File = File(name: string, fileType: string, data: seq<byte>)

  function Min(a: int, b: int): int
  {
    if a <= b then a else b
  }

  /** `Math.ceil(size / CHUNK_SIZE)`: the least count of chunks that covers `size` bytes. */
  function TotalChunks(size: nat): (n: nat)
    ensures size <= n * CHUNK_SIZE
    ensures size > 0 ==> (n - 1) * CHUNK_SIZE < size
    ensures n == 0 <==> size == 0
  {
    (size + CHUNK_SIZE - 1) / CHUNK_SIZE
  }

  /** How many `sendFileChunk` events go out: the first read happens
      unconditionally, so an empty file still sends one. */
  function ChunksSent(size: nat): nat
  {
    if size == 0 then 1 else TotalChunks(size)
  }

  /** Chunk `k` covers bytes [k * CHUNK_SIZE, min(size, (k + 1) * CHUNK_SIZE)). */
  function Slice(data: seq<byte>, k: nat): (chunk: seq<byte>)
    requires k * CHUNK_SIZE <= |data|
    ensures |chunk| <= CHUNK_SIZE
    ensures k * CHUNK_SIZE < |data| ==> |chunk| > 0
  {
    data[k * CHUNK_SIZE .. Min(|data|, k * CHUNK_SIZE + CHUNK_SIZE)]
  }

  lemma ChunkStartInFile(size: nat, k: nat)
    requires k < ChunksSent(size)
    ensures k * CHUNK_SIZE <= size
    ensures size > 0 ==> k * CHUNK_SIZE < size
  {
  }

  /** The `sendFileChunk` payloads `handleSendFile` emits, in order. */
  function PlannedChunks(file: File, target: string): (cs: seq<FileChunkData>)
  {
    var total := TotalChunks(|file.data|);
    seq(ChunksSent(|file.data|), k requires 0 <= k < ChunksSent(|file.data|) =>
      ChunkStartInFile(|file.data|, k);
      FileChunkData(target, Slice(file.data, k), k, total, file.name, file.fileType))
  }

  /** `handleSendFile` with its `readNextChunk`/`onload` cycle: read the chunk
      at `currentChunk`, emit it, advance, and read again while chunks remain. */
  method HandleSendFile(file: File, selectedUser: string) returns (emitted: seq<FileChunkData>)
    ensures emitted == PlannedChunks(file, selectedUser)
  {
    var size := |file.data|;
    var totalChunks := TotalChunks(size);
    ghost var plan := PlannedChunks(file, selectedUser);
    var currentChunk := 0;
    emitted := [];
    var reading := true;
    while reading
      invariant 0 <= currentChunk <= ChunksSent(size)
      invariant reading ==> currentChunk < ChunksSent(size)
      invariant !reading ==> currentChunk == ChunksSent(size)
      invariant emitted == plan[..currentChunk]
      decreases ChunksSent(size) - currentChunk
    {
      var start := currentChunk * CHUNK_SIZE;
      var end := Min(size, start + CHUNK_SIZE);
      var chunk := file.data[start..end];
      emitted := emitted + [FileChunkData(selectedUser, chunk, currentChunk, totalChunks, file.name, file.fileType)];
      currentChunk := currentChunk + 1;
      reading := currentChunk < totalChunks;
    }
  }

  /** Every chunk is addressed to the chosen peer and carries its own number,
      the same count, and the file's name and type; numbers run 0, 1, 2, ... */
  lemma PlanNumbering(file: File, target: string)
    ensures var cs := PlannedChunks(file, target);
      && |cs| == ChunksSent(|file.data|)
      && forall k :: 0 <= k < |cs| ==>
           && cs[k].targetUserId == target
           && cs[k].chunkNumber == k
           && cs[k].totalChunks == TotalChunks(|file.data|)
           && cs[k].fileName == file.name
           && cs[k].fileType == file.fileType
  {
  }

  /** Chunk `k` is exactly bytes [k * 64 KiB, min(size, (k + 1) * 64 KiB)) of the file:
      consecutive chunks are contiguous, none is longer than 64 KiB, and for a
      non-empty file none is empty. */
  lemma PlanBounds(file: File, target: string, k: nat)
    requires k < ChunksSent(|file.data|)
    ensures var c := PlannedChunks(file, target)[k].fileData;
      && k * CHUNK_SIZE <= Min(|file.data|, (k + 1) * CHUNK_SIZE) <= |file.data|
      && c == file.data[k * CHUNK_SIZE .. Min(|file.data|, (k + 1) * CHUNK_SIZE)]
      && |c| <= CHUNK_SIZE
      && (|file.data| > 0 ==> |c| > 0)
  {
    ChunkStartInFile(|file.data|, k);
  }

  /** The prefix up to chunk `k`'s start, followed by chunk `k`, is the
      prefix up to chunk `k`'s end. */
  lemma JoinNextSlice(d: seq<byte>, k: nat)
    requires k * CHUNK_SIZE <= Min(|d|, (k + 1) * CHUNK_SIZE) <= |d|
    ensures d[..Min(|d|, k * CHUNK_SIZE)] + d[k * CHUNK_SIZE .. Min(|d|, (k + 1) * CHUNK_SIZE)]
            == d[..Min(|d|, (k + 1) * CHUNK_SIZE)]
  {
    assert Min(|d|, k * CHUNK_SIZE) == k * CHUNK_SIZE;
  }

  /** The first `m` chunks joined are the first min(size, m * 64 KiB) bytes. */
  lemma {:induction false} PlanPrefix(file: File, target: string, m: nat)
    requires m <= ChunksSent(|file.data|)
    ensures Flatten(Payloads(PlannedChunks(file, target))[..m])
            == file.data[..Min(|file.data|, m * CHUNK_SIZE)]
  {
    var cs := PlannedChunks(file, target);
    var ps := Payloads(cs);
    if m == 0 {
      assert ps[..0] == [];
    } else {
      PlanPrefix(file, target, m - 1);
      assert ps[..m] == ps[..m - 1] + [ps[m - 1]];
      FlattenSnoc(ps[..m - 1], ps[m - 1]);
      PlanBounds(file, target, m - 1);
      assert ps[m - 1] == cs[m - 1].fileData;
      JoinNextSlice(file.data, m - 1);
    }
  }

  /** Joining every chunk in order gives back the whole file. */
  lemma PlanReassembles(file: File, target: string)
    ensures Flatten(Payloads(PlannedChunks(file, target))) == file.data
  {
    var ps := Payloads(PlannedChunks(file, target));
    PlanPrefix(file, target, |ps|);
    assert ps[..|ps|] == ps;
    assert Min(|file.data|, |ps| * CHUNK_SIZE) == |file.data|;
    assert file.data[..|file.data|] == file.data;
  }

  /** An empty file still produces one chunk: number 0 of a count of 0, no bytes. */
  lemma EmptyFilePlan(file: File, target: string)
    requires |file.data| == 0
    ensures PlannedChunks(file, target) == [FileChunkData(target, [], 0, 0, file.name, file.fileType)]
  {
  }
}
