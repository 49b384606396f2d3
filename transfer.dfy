/** The file-transfer protocol over the data channel: the sender cuts the
    file into 16384-byte binary frames by a loop over `offset` and then sends
    the text frame `'EOF'`; the receiver appends every other frame to
    `receivedChunks` and, on `'EOF'`, hands the concatenation to the file
    callback and empties the buffer. */
module Transfer {

  newtype Byte = x: int | 0 <= x < 256

  const ChunkSize: nat := 16384

  /** A frame on the data channel: a binary `ArrayBuffer`, or the text `'EOF'`. */
  datatype Frame = Chunk(bytes: seq<Byte>) | Eof

  function Min(a: int, b: int): int
  {
    if a < b then a else b
  }

  /** The binary frames the send loop produces from `offset` on:
      `slice(offset, offset + chunkSize)`, whose end `slice` clamps to the
      length, while `offset < byteLength`. */
  function SlicesFrom(file: seq<Byte>, offset: nat): (r: seq<Frame>)
    ensures forall i :: 0 <= i < |r| ==> r[i].Chunk? && 0 < |r[i].bytes| <= ChunkSize
    decreases |file| - offset
  {
    if offset >= |file| then []
    else
      var rest := SlicesFrom(file, offset + ChunkSize);
      var r := [Chunk(file[offset..Min(offset + ChunkSize, |file|)])] + rest;
      assert forall i :: 1 <= i < |r| ==> r[i] == rest[i - 1];
      r
  }

  /** Everything `sendFile` puts on the channel for `file`. */
  function FileFrames(file: seq<Byte>): (r: seq<Frame>)
    ensures |r| == ChunkCount(|file|) + 1 && r[|r| - 1] == Eof
    ensures forall i :: 0 <= i < |r| - 1 ==> r[i].Chunk?
  {
    SliceCount(file, 0);
    SlicesFrom(file, 0) + [Eof]
  }

  /** `ceil(n / 16384)`. */
  function ChunkCount(n: nat): nat
  {
    (n + ChunkSize - 1) / ChunkSize
  }

  /** `new Blob(chunks)`: the chunks' bytes one after the other. */
  function Concat(chunks: seq<seq<Byte>>): (r: seq<Byte>)
    ensures |r| == TotalLength(chunks)
    ensures chunks != [] ==> r[..|chunks[0]|] == chunks[0]
  {
    if chunks == [] then []
    else
      var rest := Concat(chunks[1..]);
      assert (chunks[0] + rest)[..|chunks[0]|] == chunks[0];
      chunks[0] + rest
  }

  /** The number of bytes in `chunks` altogether. */
  function TotalLength(chunks: seq<seq<Byte>>): nat
  {
    if chunks == [] then 0 else |chunks[0]| + TotalLength(chunks[1..])
  }

  /** The payloads of the binary frames among `fs`, in order. */
  function Payloads(fs: seq<Frame>): seq<seq<Byte>>
  {
    if fs == [] then []
    else (if fs[0].Chunk? then [fs[0].bytes] else []) + Payloads(fs[1..])
  }

  lemma {:induction false} ConcatAppend(a: seq<seq<Byte>>, b: seq<seq<Byte>>)
    ensures Concat(a + b) == Concat(a) + Concat(b)
  {
    if a != [] {
      var tail := a[1..] + b;
      assert (a + b)[0] == a[0] && (a + b)[1..] == tail;
      ConcatAppend(a[1..], b);
      assert Concat(a + b) == a[0] + Concat(tail);
      assert a[0] + (Concat(a[1..]) + Concat(b)) == (a[0] + Concat(a[1..])) + Concat(b);
    } else {
      assert a + b == b;
    }
  }

  /** The loop sends `ceil((n - offset) / 16384)` binary frames. */
  lemma {:induction false} SliceCount(file: seq<Byte>, offset: nat)
    requires offset <= |file|
    ensures |SlicesFrom(file, offset)| == ChunkCount(|file| - offset)
    decreases |file| - offset
  {
    if offset < |file| {
      if offset + ChunkSize <= |file| {
        SliceCount(file, offset + ChunkSize);
      } else {
        assert SlicesFrom(file, offset + ChunkSize) == [];
      }
    }
  }

  /** Frame `i` from `offset` on is the slice starting at `offset + i * 16384`:
      the frames go out in strictly increasing offset order. */
  lemma {:induction false} SliceAt(file: seq<Byte>, offset: nat, i: nat)
    requires i < |SlicesFrom(file, offset)|
    ensures offset + i * ChunkSize < |file|
    ensures SlicesFrom(file, offset)[i] ==
            Chunk(file[offset + i * ChunkSize..Min(offset + i * ChunkSize + ChunkSize, |file|)])
    decreases i
  {
    if i > 0 {
      SliceAt(file, offset + ChunkSize, i - 1);
    }
  }

  /** Every chunk before the last is followed by at least one more byte. */
  lemma FullChunk(n: nat, i: nat)
    requires i < ChunkCount(n) - 1
    ensures (i + 1) * ChunkSize <= n
  {
    assert ChunkCount(n) - 1 == (n - 1) / ChunkSize;
  }

  /** The last chunk starts at `16384 * ((n - 1) / 16384)` and reaches the end. */
  lemma LastChunk(n: nat)
    requires n > 0
    ensures ChunkCount(n) - 1 == (n - 1) / ChunkSize
    ensures (ChunkCount(n) - 1) * ChunkSize < n <= (ChunkCount(n) - 1) * ChunkSize + ChunkSize
  {
  }

  /** A file of `n` bytes goes out as exactly `ceil(n / 16384)` binary frames;
      frame `i` holds bytes `[16384 * i, 16384 * (i + 1))`, every frame holds
      16384 bytes except the last, which holds `n - 16384 * ((n - 1) / 16384)`. */
  lemma Chunking(file: seq<Byte>)
    ensures |SlicesFrom(file, 0)| == ChunkCount(|file|)
    ensures forall i :: 0 <= i < ChunkCount(|file|) ==>
              SlicesFrom(file, 0)[i] == Chunk(file[i * ChunkSize..Min(i * ChunkSize + ChunkSize, |file|)])
    ensures forall i :: 0 <= i < ChunkCount(|file|) - 1 ==> |SlicesFrom(file, 0)[i].bytes| == ChunkSize
    ensures |file| > 0 ==>
              |SlicesFrom(file, 0)[ChunkCount(|file|) - 1].bytes| ==
              |file| - ChunkSize * ((|file| - 1) / ChunkSize)
  {
    SliceCount(file, 0);
    var n := |file|;
    forall i | 0 <= i < ChunkCount(n)
      ensures SlicesFrom(file, 0)[i] == Chunk(file[i * ChunkSize..Min(i * ChunkSize + ChunkSize, n)])
    {
      SliceAt(file, 0, i);
    }
    forall i | 0 <= i < ChunkCount(n) - 1
      ensures |SlicesFrom(file, 0)[i].bytes| == ChunkSize
    {
      SliceAt(file, 0, i);
      FullChunk(n, i);
    }
    if n > 0 {
      SliceAt(file, 0, ChunkCount(n) - 1);
      LastChunk(n);
    }
  }

  /** The binary frames, concatenated, are the file from `offset` on. */
  lemma {:induction false} SlicesConcat(file: seq<Byte>, offset: nat)
    requires offset <= |file|
    ensures Concat(Payloads(SlicesFrom(file, offset))) == file[offset..]
    decreases |file| - offset
  {
    if offset < |file| {
      var end := Min(offset + ChunkSize, |file|);
      var fs := SlicesFrom(file, offset);
      assert fs[1..] == SlicesFrom(file, offset + ChunkSize);
      if end < |file| {
        SlicesConcat(file, offset + ChunkSize);
      } else {
        assert SlicesFrom(file, offset + ChunkSize) == [];
      }
      assert file[offset..] == file[offset..end] + file[end..];
    }
  }

  /** The frames are binary except the very last, which is `'EOF'`; an empty
      file produces `'EOF'` alone. */
  lemma FramesShape(file: seq<Byte>)
    ensures |FileFrames(file)| == ChunkCount(|file|) + 1
    ensures FileFrames(file)[|FileFrames(file)| - 1] == Eof
    ensures forall i :: 0 <= i < |FileFrames(file)| - 1 ==> FileFrames(file)[i].Chunk?
    ensures |file| == 0 ==> FileFrames(file) == [Eof]
  {
    SliceCount(file, 0);
    SlicesAreChunks(file);
  }

  lemma SlicesAreChunks(file: seq<Byte>)
    ensures forall i :: 0 <= i < |SlicesFrom(file, 0)| ==> SlicesFrom(file, 0)[i].Chunk?
  {
    forall i | 0 <= i < |SlicesFrom(file, 0)| ensures SlicesFrom(file, 0)[i].Chunk? {
      SliceAt(file, 0, i);
    }
  }

  /** One call `onReceiveFile(blob)`: which callback was installed, and the blob's bytes. */
  datatype Blob = Blob(callback: nat, bytes: seq<Byte>)

  /** The receiving handler's state: `receivedChunks`, and every callback made so far. */
  datatype Receiver = Receiver(chunks: seq<seq<Byte>>, delivered: seq<Blob>)

  /** `dataChannel.onmessage` with `onReceiveFile` currently `callback`. */
  function Receive(r: Receiver, callback: nat, f: Frame): (r': Receiver)
    ensures |r'.delivered| == |r.delivered| + (if f.Eof? then 1 else 0)
    ensures r'.delivered[..|r.delivered|] == r.delivered
    ensures f.Chunk? ==> Concat(r'.chunks) == Concat(r.chunks) + f.bytes
    ensures f.Eof? ==> r'.chunks == [] && r'.delivered[|r.delivered|] == Blob(callback, Concat(r.chunks))
  {
    if f.Chunk? then
      ConcatAppend(r.chunks, [f.bytes]);
      assert [f.bytes][1..] == [];
      Receiver(r.chunks + [f.bytes], r.delivered)
    else
      Receiver([], r.delivered + [Blob(callback, Concat(r.chunks))])
  }

  function ReceiveAll(r: Receiver, callback: nat, fs: seq<Frame>): Receiver
    decreases |fs|
  {
    if fs == [] then r else ReceiveAll(Receive(r, callback, fs[0]), callback, fs[1..])
  }

  /** Binary frames are appended in arrival order and call nothing. */
  lemma {:induction false} ReceiveChunks(r: Receiver, callback: nat, fs: seq<Frame>)
    requires forall i :: 0 <= i < |fs| ==> fs[i].Chunk?
    ensures ReceiveAll(r, callback, fs) == Receiver(r.chunks + Payloads(fs), r.delivered)
    decreases |fs|
  {
    if fs != [] {
      var r1 := Receiver(r.chunks + [fs[0].bytes], r.delivered);
      assert Receive(r, callback, fs[0]) == r1;
      ReceiveChunks(r1, callback, fs[1..]);
      assert Payloads(fs) == [fs[0].bytes] + Payloads(fs[1..]);
      assert r1.chunks + Payloads(fs[1..]) == r.chunks + Payloads(fs);
    }
  }

  /** Feeding `sendFile(file)`'s frames to a receiver calls the callback
      exactly once, with whatever it still held followed by the file, and
      leaves it empty. */
  lemma ReceiveFile(r: Receiver, callback: nat, file: seq<Byte>)
    ensures ReceiveAll(r, callback, FileFrames(file)) ==
            Receiver([], r.delivered + [Blob(callback, Concat(r.chunks) + file)])
  {
    var slices := SlicesFrom(file, 0);
    SlicesAreChunks(file);
    ReceiveChunks(r, callback, slices);
    ReceiveAllAppend(r, callback, slices, [Eof]);
    SlicesConcat(file, 0);
    ConcatAppend(r.chunks, Payloads(slices));
  }

  lemma {:induction false} ReceiveAllAppend(r: Receiver, callback: nat, a: seq<Frame>, b: seq<Frame>)
    ensures ReceiveAll(r, callback, a + b) == ReceiveAll(ReceiveAll(r, callback, a), callback, b)
    decreases |a|
  {
    if a != [] {
      assert (a + b)[1..] == a[1..] + b;
      ReceiveAllAppend(Receive(r, callback, a[0]), callback, a[1..], b);
    } else {
      assert a + b == b;
    }
  }

  /** Round trip: a fresh receiver given the frames of `sendFile(file)` makes
      one callback, whose blob is exactly `file`. */
  lemma RoundTrip(file: seq<Byte>, callback: nat)
    ensures ReceiveAll(Receiver([], []), callback, FileFrames(file)) == Receiver([], [Blob(callback, file)])
  {
    ReceiveFile(Receiver([], []), callback, file);
    assert Concat([]) + file == file;
  }

  /** Two files sent one after the other arrive as two callbacks, in order. */
  lemma BackToBack(file1: seq<Byte>, file2: seq<Byte>, callback: nat)
    ensures ReceiveAll(Receiver([], []), callback, FileFrames(file1) + FileFrames(file2)) ==
            Receiver([], [Blob(callback, file1), Blob(callback, file2)])
  {
    ReceiveAllAppend(Receiver([], []), callback, FileFrames(file1), FileFrames(file2));
    RoundTrip(file1, callback);
    ReceiveFile(Receiver([], [Blob(callback, file1)]), callback, file2);
    assert Concat([]) + file2 == file2;
  }
}
