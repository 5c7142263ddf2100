/**
 * The chunked object-store writer of paramedic/s3_writer.go.
 *
 * `S3Writer` keeps a list of chunks; each write goes to the last one, and a
 * write that would take the last chunk past `MaxChunkSize` first closes it
 * and appends a fresh chunk with the next index. An uploader uploads every
 * chunk in order, stops at the first failure, and drops the uploaded closed
 * chunks from the front of the list.
 *
 * Module `S3Chunks` states all of this on chunk values; module `S3Writer`
 * holds the objects the source mutates in place and ties them to those values.
 * `PutObject` is an oracle: the uploader is given one success flag per chunk.
 */
module S3Chunks {
  import opened Common

  /** The value of one chunk. */
  datatype ChunkState = ChunkState(body: string, index: int, closed: bool)

  const AlreadyClosed: string := "already closed"

  /** Indices run `first`, `first + 1`, ... */
  predicate Consecutive(cs: seq<ChunkState>, first: int) {
    forall i :: 0 <= i < |cs| ==> cs[i].index == first + i
  }

  /** Every chunk except possibly the last is closed. */
  predicate ClosedPrefix(cs: seq<ChunkState>) {
    forall i :: 0 <= i < |cs| - 1 ==> cs[i].closed
  }

  predicate AllClosed(cs: seq<ChunkState>) {
    forall i :: 0 <= i < |cs| ==> cs[i].closed
  }

  /** The bodies of the chunks, concatenated in order. */
  function Bodies(cs: seq<ChunkState>): string {
    if cs == [] then [] else cs[0].body + Bodies(cs[1..])
  }

  lemma {:induction false} BodiesAppend(a: seq<ChunkState>, b: seq<ChunkState>)
    ensures Bodies(a + b) == Bodies(a) + Bodies(b)
    decreases |a|
  {
    if a == [] {
      assert a + b == b;
    } else {
      assert (a + b)[0] == a[0];
      assert (a + b)[1..] == a[1..] + b;
      BodiesAppend(a[1..], b);
    }
  }

  // ---------------------------------------------------------------------------
  // Write

  /** Whether writing `p` takes the last chunk past the size limit. */
  predicate Overflows(cs: seq<ChunkState>, p: string, maxChunkSize: int)
    requires |cs| > 0
  {
    |cs[|cs| - 1].body| + |p| > maxChunkSize
  }

  /** `Write` on the chunk list, as written: on overflow the last chunk is
      closed and a new empty one appended, but because the source re-declares
      `chunk` inside the `if`, the bytes still go to the chunk just closed. */
  function WriteChunks(cs: seq<ChunkState>, p: string, maxChunkSize: int): (r: seq<ChunkState>)
    requires |cs| > 0
    // one chunk more exactly on overflow
    ensures |r| == |cs| + (if Overflows(cs, p, maxChunkSize) then 1 else 0)
    // the bytes always go to the chunk that was last, whether or not it overflowed
    ensures r[|cs| - 1].body == cs[|cs| - 1].body + p && r[|cs| - 1].index == cs[|cs| - 1].index
    ensures r[|cs| - 1].closed == (cs[|cs| - 1].closed || Overflows(cs, p, maxChunkSize))
  {
    var last := cs[|cs| - 1];
    if Overflows(cs, p, maxChunkSize) then
      cs[..|cs| - 1] + [ChunkState(last.body + p, last.index, true), ChunkState([], last.index + 1, false)]
    else
      cs[..|cs| - 1] + [ChunkState(last.body + p, last.index, last.closed)]
  }

  /** A write keeps the buffer's shape: the earlier chunks are untouched,
      indices stay consecutive, all but the last chunk are closed, and the
      last chunk is open if it was. An overflow adds exactly one chunk, with
      the next index; otherwise the number of chunks is unchanged. */
  lemma WriteChunksShape(cs: seq<ChunkState>, p: string, maxChunkSize: int, first: int)
    requires |cs| > 0 && Consecutive(cs, first) && ClosedPrefix(cs)
    ensures var r := WriteChunks(cs, p, maxChunkSize);
      && r[..|cs| - 1] == cs[..|cs| - 1]
      && Consecutive(r, first) && ClosedPrefix(r)
      && (!cs[|cs| - 1].closed ==> !r[|r| - 1].closed)
      && (Overflows(cs, p, maxChunkSize) ==>
            |r| == |cs| + 1 && r[|cs| - 1].closed && r[|cs|] == ChunkState([], cs[|cs| - 1].index + 1, false))
      && (!Overflows(cs, p, maxChunkSize) ==> |r| == |cs| && r[|cs| - 1].closed == cs[|cs| - 1].closed)
  {
  }

  /** No byte is lost or reordered: the bodies after a write are the bodies
      before it followed by the written bytes. */
  lemma WriteChunksBodies(cs: seq<ChunkState>, p: string, maxChunkSize: int)
    requires |cs| > 0
    ensures Bodies(WriteChunks(cs, p, maxChunkSize)) == Bodies(cs) + p
  {
    var last := cs[|cs| - 1];
    var init := cs[..|cs| - 1];
    var tail := WriteTail(cs, p, maxChunkSize);
    BodiesAppend(init, tail);
    BodiesAppend(init, [last]);
    BodiesOne(last);
    ConcatAssoc(Bodies(init), last.body, p);
  }

  /** The chunks a write leaves in place of the last one. */
  lemma WriteTail(cs: seq<ChunkState>, p: string, maxChunkSize: int) returns (tail: seq<ChunkState>)
    requires |cs| > 0
    ensures cs == cs[..|cs| - 1] + [cs[|cs| - 1]]
    ensures WriteChunks(cs, p, maxChunkSize) == cs[..|cs| - 1] + tail
    ensures Bodies(tail) == cs[|cs| - 1].body + p
  {
    var last := cs[|cs| - 1];
    tail := WriteChunks(cs, p, maxChunkSize)[|cs| - 1..];
    var a := ChunkState(last.body + p, last.index, Overflows(cs, p, maxChunkSize) || last.closed);
    BodiesOne(a);
    if Overflows(cs, p, maxChunkSize) {
      var b := ChunkState([], last.index + 1, false);
      assert tail == [a] + [b];
      BodiesAppend([a], [b]);
      BodiesOne(b);
    } else {
      assert tail == [a];
    }
  }

  lemma BodiesOne(c: ChunkState)
    ensures Bodies([c]) == c.body
  {
    assert [c][1..] == [];
  }

  /** The consequence of the re-declared `chunk`: after an overflowing write
      the new chunk is empty, and the chunk just closed holds the written
      bytes and is larger than the limit it was closed to respect. */
  lemma OverflowLandsInClosedChunk(cs: seq<ChunkState>, p: string, maxChunkSize: int)
    requires |cs| > 0 && Overflows(cs, p, maxChunkSize)
    ensures var r := WriteChunks(cs, p, maxChunkSize);
      && r[|cs| - 1].closed && r[|cs| - 1].body == cs[|cs| - 1].body + p
      && |r[|cs| - 1].body| > maxChunkSize
      && r[|cs|].body == []
  {
  }

  // ---------------------------------------------------------------------------
  // Upload and purge

  /** The object key of a chunk: the prefix, the index in decimal, ".log". */
  function ChunkKey(keyPrefix: string, index: int): (key: string)
    ensures |key| > |keyPrefix| + 4
    ensures key[..|keyPrefix|] == keyPrefix && key[|key| - 4..] == ".log"
    ensures key[|keyPrefix|..|key| - 4] == FormatInt(index)
  {
    keyPrefix + FormatInt(index) + ".log"
  }

  /** Chunks with different indices are uploaded to different keys, so no
      upload overwrites another chunk's object. */
  lemma ChunkKeyInjective(keyPrefix: string, i: int, j: int)
    requires ChunkKey(keyPrefix, i) == ChunkKey(keyPrefix, j)
    ensures i == j
  {
    FormatIntInjective(i, j);
  }

  /** The `PutObject` calls for the given chunks, in order. */
  function UploadRequests(bucket: string, keyPrefix: string, cs: seq<ChunkState>): (rs: seq<PutRequest>)
    ensures |rs| == |cs|
  {
    seq(|cs|, i requires 0 <= i < |cs| => PutRequest(bucket, ChunkKey(keyPrefix, cs[i].index), cs[i].body))
  }

  /** One more chunk adds its request and, if closed, one to the count. */
  lemma UploadStep(bucket: string, keyPrefix: string, cs: seq<ChunkState>, i: nat)
    requires i < |cs|
    ensures UploadRequests(bucket, keyPrefix, cs[..i + 1])
         == UploadRequests(bucket, keyPrefix, cs[..i]) + [PutRequest(bucket, ChunkKey(keyPrefix, cs[i].index), cs[i].body)]
    ensures ClosedCount(cs[..i + 1]) == ClosedCount(cs[..i]) + if cs[i].closed then 1 else 0
  {
    ClosedCountStep(cs, i);
    var a := UploadRequests(bucket, keyPrefix, cs[..i + 1]);
    var b := UploadRequests(bucket, keyPrefix, cs[..i]) + [PutRequest(bucket, ChunkKey(keyPrefix, cs[i].index), cs[i].body)];
    forall j | 0 <= j < i + 1 ensures a[j] == b[j] {
      assert cs[..i + 1][j] == cs[j];
    }
  }

  lemma ClosedCountStep(cs: seq<ChunkState>, i: nat)
    requires i < |cs|
    ensures ClosedCount(cs[..i + 1]) == ClosedCount(cs[..i]) + if cs[i].closed then 1 else 0
  {
    assert cs[..i + 1][..i] == cs[..i];
  }

  /** The position of the first failed upload, or `|outcomes|` if none failed. */
  function FirstFailure(outcomes: seq<bool>): (k: nat)
    ensures k <= |outcomes|
    ensures k < |outcomes| ==> !outcomes[k]
    ensures forall j :: 0 <= j < k ==> outcomes[j]
  {
    if outcomes == [] then 0
    else if !outcomes[0] then 0
    else 1 + FirstFailure(outcomes[1..])
  }

  /** The number of `PutObject` calls made: up to and including the first failure. */
  function Attempted(outcomes: seq<bool>): (n: nat)
    ensures FirstFailure(outcomes) <= n <= |outcomes|
    // every call but the last one made succeeded ...
    ensures forall j :: 0 <= j < n - 1 ==> outcomes[j]
    // ... and the loop stops early only after a failure
    ensures n < |outcomes| ==> 0 < n && !outcomes[n - 1]
    ensures |outcomes| > 0 ==> n > 0
  {
    if FirstFailure(outcomes) < |outcomes| then FirstFailure(outcomes) + 1 else |outcomes|
  }

  /** The number of closed chunks in `cs`. */
  function ClosedCount(cs: seq<ChunkState>): (n: nat)
    ensures n <= |cs|
    decreases |cs|
  {
    if cs == [] then 0
    else ClosedCount(cs[..|cs| - 1]) + (if cs[|cs| - 1].closed then 1 else 0)
  }

  /** `purgeCount`: the closed chunks among those uploaded successfully. */
  function PurgeCount(cs: seq<ChunkState>, outcomes: seq<bool>): (n: nat)
    requires |outcomes| == |cs|
    ensures n <= FirstFailure(outcomes)
  {
    ClosedCount(cs[..FirstFailure(outcomes)])
  }

  /** With closed chunks forming a prefix, counting the closed chunks among
      the first `n` is the same as taking the closed part of those `n`. */
  lemma {:induction false} ClosedCountOfPrefix(cs: seq<ChunkState>, n: nat)
    requires ClosedPrefix(cs) && n <= |cs|
    ensures ClosedCount(cs[..n]) == if n == |cs| && n > 0 && !cs[n - 1].closed then n - 1 else n
    decreases n
  {
    if n > 0 {
      assert cs[..n][..n - 1] == cs[..n - 1];
      ClosedCountOfPrefix(cs, n - 1);
    }
  }

  /** What the purge removes: exactly the successfully uploaded chunks that
      are closed, from the front. The open last chunk is never removed. */
  lemma PurgeRemovesUploadedClosed(cs: seq<ChunkState>, outcomes: seq<bool>)
    requires |outcomes| == |cs| && ClosedPrefix(cs)
    ensures var k := PurgeCount(cs, outcomes);
      && AllClosed(cs[..k])
      && (forall j :: 0 <= j < k ==> outcomes[j])
      && (k < FirstFailure(outcomes) ==> FirstFailure(outcomes) == |cs| && !cs[|cs| - 1].closed)
      && (|cs| > 0 && !cs[|cs| - 1].closed ==> k < |cs|)
  {
    ClosedCountOfPrefix(cs, FirstFailure(outcomes));
  }

  /** Moving the first `count` chunks, all closed, from the buffer to the
      purged list keeps both well formed and loses no byte. */
  lemma PurgeKeepsShape(purged: seq<ChunkState>, cs: seq<ChunkState>, count: nat)
    requires Consecutive(purged, 1) && AllClosed(purged)
    requires Consecutive(cs, |purged| + 1) && ClosedPrefix(cs)
    requires count <= |cs| && AllClosed(cs[..count])
    ensures Consecutive(purged + cs[..count], 1) && AllClosed(purged + cs[..count])
    ensures Consecutive(cs[count..], |purged + cs[..count]| + 1) && ClosedPrefix(cs[count..])
    ensures AllClosed(cs) ==> AllClosed(cs[count..])
    ensures Bodies(purged + cs[..count]) + Bodies(cs[count..]) == Bodies(purged) + Bodies(cs)
  {
    assert cs == cs[..count] + cs[count..];
    BodiesAppend(purged, cs[..count]);
    BodiesAppend(cs[..count], cs[count..]);
    ConcatAssoc(Bodies(purged), Bodies(cs[..count]), Bodies(cs[count..]));
  }

  /** Every chunk with its closed flag set, as `Close` leaves them. */
  function CloseAll(cs: seq<ChunkState>): (r: seq<ChunkState>)
    ensures |r| == |cs| && AllClosed(r)
    ensures forall i :: 0 <= i < |cs| ==> r[i].body == cs[i].body && r[i].index == cs[i].index
  {
    seq(|cs|, i requires 0 <= i < |cs| => cs[i].(closed := true))
  }

  /** Closing every chunk keeps their indices and bodies. */
  lemma CloseAllKeepsShape(cs: seq<ChunkState>, first: int)
    requires Consecutive(cs, first)
    ensures Consecutive(CloseAll(cs), first) && ClosedPrefix(CloseAll(cs))
    ensures Bodies(CloseAll(cs)) == Bodies(cs)
  {
    CloseAllBodies(cs);
  }

  /** Closing chunks does not touch their bodies. */
  lemma {:induction false} CloseAllBodies(cs: seq<ChunkState>)
    ensures Bodies(CloseAll(cs)) == Bodies(cs)
    decreases |cs|
  {
    if cs != [] {
      assert CloseAll(cs)[1..] == CloseAll(cs[1..]);
      CloseAllBodies(cs[1..]);
    }
  }

  /** After `Close`, an upload in which every `PutObject` succeeds empties
      the buffer: nothing closed is kept back. */
  lemma {:induction false} CloseThenUploadPurgesAll(cs: seq<ChunkState>, outcomes: seq<bool>)
    requires |outcomes| == |cs| && forall j :: 0 <= j < |outcomes| ==> outcomes[j]
    ensures PurgeCount(CloseAll(cs), outcomes) == |cs|
  {
    var closed := CloseAll(cs);
    assert ClosedPrefix(closed);
    assert FirstFailure(outcomes) == |cs|;
    ClosedCountOfPrefix(closed, |cs|);
    assert closed[..|cs|] == closed;
  }

  // ---------------------------------------------------------------------------
  // The writer's invariant on values

  /** What the writer keeps true of its chunks: the purged chunks and the
      buffered ones are numbered consecutively from 1, everything purged is
      closed, only the last buffered chunk may be open and it is open while
      the writer is, and the bodies in order are every byte written. */
  predicate WellFormed(purged: seq<ChunkState>, cs: seq<ChunkState>, closed: bool, written: string) {
    && Consecutive(purged, 1) && AllClosed(purged)
    && Consecutive(cs, |purged| + 1) && ClosedPrefix(cs)
    && (!closed ==> |cs| > 0 && !cs[|cs| - 1].closed)
    && (closed ==> AllClosed(cs))
    && Bodies(purged) + Bodies(cs) == written
  }

  /** A write to an open writer keeps it well formed, with `p` added to
      what was written. */
  lemma WriteKeepsWellFormed(purged: seq<ChunkState>, cs: seq<ChunkState>, p: string, maxChunkSize: int, written: string)
    requires WellFormed(purged, cs, false, written)
    ensures WellFormed(purged, WriteChunks(cs, p, maxChunkSize), false, written + p)
  {
    WriteChunksShape(cs, p, maxChunkSize, |purged| + 1);
    WriteChunksBodies(cs, p, maxChunkSize);
    ConcatAssoc(Bodies(purged), Bodies(cs), p);
  }

  /** Purging closed chunks from the front keeps the writer well formed,
      provided an open writer keeps its last chunk. */
  lemma PurgeKeepsWellFormed(purged: seq<ChunkState>, cs: seq<ChunkState>, count: nat, closed: bool, written: string)
    requires WellFormed(purged, cs, closed, written)
    requires count <= |cs| && AllClosed(cs[..count]) && (!closed ==> count < |cs|)
    ensures WellFormed(purged + cs[..count], cs[count..], closed, written)
  {
    PurgeKeepsShape(purged, cs, count);
  }

  /** Closing every chunk leaves a well-formed closed writer. */
  lemma CloseKeepsWellFormed(purged: seq<ChunkState>, cs: seq<ChunkState>, closed: bool, written: string)
    requires WellFormed(purged, cs, closed, written)
    ensures WellFormed(purged, CloseAll(cs), true, written)
  {
    CloseAllKeepsShape(cs, |purged| + 1);
  }
}

/**
 * The writer and its chunks as the objects the source updates in place.
 */
module S3Writer {
  import opened Common
  import opened S3Chunks

  class Chunk {
    var body: string
    const index: int
    var closed: bool

    /** `NewChunk`: an open, empty chunk. */
    constructor (index: int)
      ensures body == [] && this.index == index && !closed
    {
      body := [];
      this.index := index;
      closed := false;
    }

    function State(): ChunkState
      reads this
    {
      ChunkState(body, index, closed)
    }
  }

  class S3Writer {
    const maxChunkSize: int
    /** The upload interval, in nanoseconds. */
    const interval: int
    const bucket: string
    const keyPrefix: string

    var closed: bool
    var buffer: seq<Chunk>
    /** The upload goroutine has been started. */
    var uploading: bool
    /** The upload goroutine has done its final upload and signalled. */
    var finalized: bool

    /** The values of the buffered chunks, kept in step with `buffer`. */
    ghost var chunks: seq<ChunkState>
    /** Every byte `Write` accepted, in order. */
    ghost var written: string
    /** The chunks removed by purges, in order. */
    ghost var purged: seq<ChunkState>

    /** No chunk object appears twice in the buffer. */
    ghost predicate Distinct()
      reads this`buffer
    {
      forall i, j :: 0 <= i < j < |buffer| ==> buffer[i] != buffer[j]
    }

    /** `chunks` holds the current value of every buffered chunk. */
    ghost predicate Coupled()
      reads this`buffer, this`chunks, buffer
    {
      |chunks| == |buffer| && forall i :: 0 <= i < |buffer| ==> buffer[i].State() == chunks[i]
    }

    ghost predicate Valid()
      reads this`buffer, this`chunks, this`purged, this`closed, this`written, buffer
    {
      Distinct() && Coupled() && WellFormed(purged, chunks, closed, written)
    }

    /** `NewS3Writer`: one open, empty chunk with index 1. */
    constructor (bucket: string, key: string, interval: int, maxSize: int)
      ensures Valid()
      ensures this.bucket == bucket && keyPrefix == key && this.interval == interval && maxChunkSize == maxSize
      ensures chunks == [ChunkState([], 1, false)]
      ensures !closed && !uploading && !finalized && written == [] && purged == []
    {
      this.bucket := bucket;
      keyPrefix := key;
      this.interval := interval;
      maxChunkSize := maxSize;
      var c := new Chunk(1);
      buffer := [c];
      chunks := [c.State()];
      closed, uploading, finalized := false, false, false;
      written, purged := [], [];
    }

    /** `Write`: refused once closed; otherwise the chunk list becomes
        `WriteChunks` of what it was, and every byte is reported written. */
    method Write(p: string) returns (n: int, err: Option<string>)
      requires Valid()
      modifies this`buffer, this`chunks, this`written, buffer
      ensures Valid()
      ensures closed == old(closed) && purged == old(purged)
      ensures uploading == old(uploading) && finalized == old(finalized)
      ensures old(closed) ==>
                n == 0 && err == Some(AlreadyClosed) &&
                buffer == old(buffer) && chunks == old(chunks) && written == old(written)
      ensures !old(closed) ==>
                n == |p| && err.None? &&
                chunks == WriteChunks(old(chunks), p, maxChunkSize) &&
                written == old(written) + p
      ensures |old(buffer)| <= |buffer| && buffer[..|old(buffer)|] == old(buffer)
    {
      if closed {
        return 0, Some(AlreadyClosed);
      }
      WriteKeepsWellFormed(purged, chunks, p, maxChunkSize, written);
      AppendToLast(p);
      written := written + p;
      n, err := |p|, None;
    }

    /** The body of `Write` past the closed check: the bytes go to the last
        chunk, after closing it and appending a fresh one when they overflow. */
    method AppendToLast(p: string)
      requires |buffer| > 0 && Distinct() && Coupled()
      modifies this`buffer, this`chunks, buffer
      ensures Distinct() && Coupled()
      ensures chunks == WriteChunks(old(chunks), p, maxChunkSize)
      ensures |old(buffer)| <= |buffer| && buffer[..|old(buffer)|] == old(buffer)
    {
      var chunk := buffer[|buffer| - 1];
      if |chunk.body| + |p| > maxChunkSize {
        chunk.closed := true;
        // The source declares a second `chunk` here, so the append below
        // still goes to the chunk just closed.
        var next := new Chunk(chunk.index + 1);
        buffer := buffer + [next];
      }
      chunk.body := chunk.body + p;
      chunks := WriteChunks(chunks, p, maxChunkSize);
      forall i | 0 <= i < |buffer| ensures buffer[i].State() == chunks[i] {
        if i < |old(buffer)| - 1 {
          assert buffer[i] == old(buffer[i]) && buffer[i] != chunk;
        }
      }
    }

    /** The upload loop of `uploadBuffer`: one `PutObject` per chunk, in order,
        to `KeyPrefix + index + ".log"`, stopping at the first failure
        (`outcomes[i]` answers the call for the i-th chunk), counting the
        closed chunks uploaded. */
    method UploadChunks(outcomes: seq<bool>) returns (requests: seq<PutRequest>, purgeCount: nat)
      requires Coupled() && |outcomes| == |buffer|
      ensures requests == UploadRequests(bucket, keyPrefix, chunks[..Attempted(outcomes)])
      ensures purgeCount == PurgeCount(chunks, outcomes)
    {
      purgeCount := 0;
      requests := [];
      var i := 0;
      while i < |buffer|
        invariant 0 <= i <= FirstFailure(outcomes)
        invariant requests == UploadRequests(bucket, keyPrefix, chunks[..i])
        invariant purgeCount == ClosedCount(chunks[..i])
        decreases |buffer| - i
      {
        var chunk := buffer[i].State();
        UploadStep(bucket, keyPrefix, chunks, i);
        var key := keyPrefix + FormatInt(chunk.index) + ".log";
        requests := requests + [PutRequest(bucket, key, chunk.body)];
        if !outcomes[i] {
          assert FirstFailure(outcomes) == i && Attempted(outcomes) == i + 1;
          break;
        }
        if chunk.closed {
          purgeCount := purgeCount + 1;
        }
        i := i + 1;
      }
      assert i == |chunks| ==> chunks[..i] == chunks && Attempted(outcomes) == i;
    }

    /** `uploadBuffer`: run the upload loop, then drop the uploaded closed
        chunks from the front of the buffer. */
    method UploadBuffer(outcomes: seq<bool>) returns (requests: seq<PutRequest>)
      requires Valid() && |outcomes| == |buffer|
      modifies this`buffer, this`chunks, this`purged
      ensures Valid()
      ensures requests == UploadRequests(bucket, keyPrefix, old(chunks)[..Attempted(outcomes)])
      ensures buffer == old(buffer)[PurgeCount(old(chunks), outcomes)..]
      ensures chunks == old(chunks)[PurgeCount(old(chunks), outcomes)..]
      ensures purged == old(purged) + old(chunks)[..PurgeCount(old(chunks), outcomes)]
    {
      var purgeCount;
      requests, purgeCount := UploadChunks(outcomes);
      PurgeRemovesUploadedClosed(chunks, outcomes);
      if purgeCount > 0 {
        Purge(purgeCount);
      } else {
        assert buffer == buffer[0..] && chunks == chunks[0..];
        assert purged == purged + chunks[..0];
      }
    }

    /** Drop the first `count` chunks, which have been uploaded and are closed. */
    method Purge(count: nat)
      requires Valid() && count <= |buffer| && AllClosed(chunks[..count])
      requires !closed ==> count < |buffer|
      modifies this`buffer, this`chunks, this`purged
      ensures Valid()
      ensures buffer == old(buffer)[count..] && chunks == old(chunks)[count..]
      ensures purged == old(purged) + old(chunks)[..count]
    {
      PurgeKeepsWellFormed(purged, chunks, count, closed, written);
      buffer := buffer[count..];
      purged := purged + chunks[..count];
      chunks := chunks[count..];
    }

    /** `StartUploading`: start the upload goroutine. */
    method StartUploading()
      requires Valid()
      modifies this`uploading
      ensures Valid() && uploading
    {
      uploading := true;
    }

    /** One timer-driven iteration of the upload goroutine: an upload, if the
        goroutine is running and has not finished. */
    method Tick(outcomes: seq<bool>) returns (ran: bool, requests: seq<PutRequest>)
      requires Valid() && |outcomes| == |buffer|
      modifies this`buffer, this`chunks, this`purged
      ensures Valid()
      ensures ran == (uploading && !finalized)
      ensures !ran ==> requests == [] && buffer == old(buffer) && chunks == old(chunks) && purged == old(purged)
      ensures ran ==>
                requests == UploadRequests(bucket, keyPrefix, old(chunks)[..Attempted(outcomes)]) &&
                buffer == old(buffer)[PurgeCount(old(chunks), outcomes)..] &&
                chunks == old(chunks)[PurgeCount(old(chunks), outcomes)..] &&
                purged == old(purged) + old(chunks)[..PurgeCount(old(chunks), outcomes)]
    {
      ran, requests := uploading && !finalized, [];
      if ran {
        requests := UploadBuffer(outcomes);
      }
    }

    /** `Close`: close the writer and every chunk, then hand over to the upload
        goroutine for its final upload and wait for it. Without a running
        goroutine the hand-over never completes and `Close` does not return. */
    method Close(outcomes: seq<bool>) returns (returned: bool, requests: seq<PutRequest>)
      requires Valid() && |outcomes| == |buffer|
      modifies this`closed, this`buffer, this`chunks, this`purged, this`finalized, buffer
      ensures Valid() && closed
      ensures uploading == old(uploading) && written == old(written)
      ensures returned == (old(uploading) && !old(finalized))
      ensures returned ==>
                finalized &&
                requests == UploadRequests(bucket, keyPrefix, CloseAll(old(chunks))[..Attempted(outcomes)]) &&
                buffer == old(buffer)[PurgeCount(CloseAll(old(chunks)), outcomes)..] &&
                chunks == CloseAll(old(chunks))[PurgeCount(CloseAll(old(chunks)), outcomes)..] &&
                purged == old(purged) + CloseAll(old(chunks))[..PurgeCount(CloseAll(old(chunks)), outcomes)]
      ensures !returned ==>
                requests == [] && buffer == old(buffer) && chunks == CloseAll(old(chunks)) &&
                purged == old(purged) && finalized == old(finalized)
    {
      MarkClosed();
      ghost var closedChunks := chunks;
      assert closedChunks == CloseAll(old(chunks)) && buffer == old(buffer) && purged == old(purged);
      returned, requests := uploading && !finalized, [];
      if returned {
        requests := FinalUpload(outcomes);
        assert chunks == closedChunks[PurgeCount(closedChunks, outcomes)..];
      }
    }

    /** The flag-setting part of `Close`: the writer and every chunk are closed. */
    method MarkClosed()
      requires Valid()
      modifies this`closed, this`chunks, buffer
      ensures Valid() && closed
      ensures chunks == CloseAll(old(chunks))
    {
      CloseKeepsWellFormed(purged, chunks, closed, written);
      closed := true;
      CloseChunks();
    }

    /** The upload goroutine's last iteration, on the hand-over from `Close`:
        one more upload, after which it signals and exits. */
    method FinalUpload(outcomes: seq<bool>) returns (requests: seq<PutRequest>)
      requires Valid() && |outcomes| == |buffer|
      modifies this`buffer, this`chunks, this`purged, this`finalized
      ensures Valid() && finalized
      ensures requests == UploadRequests(bucket, keyPrefix, old(chunks)[..Attempted(outcomes)])
      ensures buffer == old(buffer)[PurgeCount(old(chunks), outcomes)..]
      ensures chunks == old(chunks)[PurgeCount(old(chunks), outcomes)..]
      ensures purged == old(purged) + old(chunks)[..PurgeCount(old(chunks), outcomes)]
    {
      requests := UploadBuffer(outcomes);
      finalized := true;
    }

    /** The loop of `Close` that sets every chunk's closed flag. */
    method CloseChunks()
      requires Distinct() && Coupled()
      modifies this`chunks, buffer
      ensures Coupled() && chunks == CloseAll(old(chunks))
    {
      for k := 0 to |buffer|
        invariant chunks == old(chunks)
        invariant forall j :: 0 <= j < k ==> buffer[j].State() == chunks[j].(closed := true)
        invariant forall j :: k <= j < |buffer| ==> buffer[j].State() == chunks[j]
      {
        buffer[k].closed := true;
      }
      chunks := CloseAll(chunks);
    }
  }
}
