/** Using a committed file again. The record rebuilt from the stored bytes counts blocks where the
    record of a created file holds the index of the last one, so reopening does not undo a commit;
    the theorems give the exact relation. */
module Reopen {
  import opened Outcomes
  import opened ByteStore
  import opened Aead
  import opened ChunkedFile
  import opened FileSession
  import opened ConcurrentStaging
  import opened FileRoundTrip

  /** A committed file that nobody has open: blocks 0..m.farthestBlockSeen, then the trailer. */
  predicate IsCommitted(bs: BlockSize, v: FileView, m: ChunkMeta) {
    && v.content.Some? && !v.cached && v.record.None?
    && m.farthestBlockSeen >= 0 && 0 <= m.paddingLength <= bs
    && |v.content.value| == ChunkOffset(bs, m.farthestBlockSeen + 1) + PADDING_LENGTH_SIZE
    && ReadPaddingLength(v.content.value) == m.paddingLength
  }

  function OnePast(m: ChunkMeta): ChunkMeta { m.(farthestBlockSeen := m.farthestBlockSeen + 1) }

  /** Committing a created file leaves a committed file of the same record. */
  lemma CommitMakesCommitted(bs: BlockSize, v: FileView, m: ChunkMeta)
    requires v.content.Some? && v.cached && v.record == Some(m)
    requires m.farthestBlockSeen >= 0 && 0 <= m.paddingLength <= bs
    requires |v.content.value| <= ChunkOffset(bs, m.farthestBlockSeen + 1)
    ensures Committed(bs, v).0.Ok? && IsCommitted(bs, Committed(bs, v).1, m)
    ensures SizeOf(bs, Committed(bs, v).1) == SizeOf(bs, v)
  {
    TrailerWritten(bs, v.content.value, m);
    CommitFraming(bs, v.content.value, m);
  }

  /** Reopening recovers the padding exactly and puts the farthest block one too far. */
  lemma ReopenIsOnePast(bs: BlockSize, v: FileView, m: ChunkMeta)
    requires IsCommitted(bs, v, m)
    ensures Opened(bs, v) == (Ok(OnePast(m)), v.(cached := true, record := Some(OnePast(m))))
    ensures SizeOf(bs, v) == Ok(SizeInMemory(bs, m))
    ensures SizeOf(bs, Opened(bs, v).1) == Ok(SizeInMemory(bs, m) + bs)
  {
    SpanSplits(ChunkSize(bs), m.farthestBlockSeen + 1, PADDING_LENGTH_SIZE);
    ChunkOverhead(bs, m.farthestBlockSeen + 1);
  }

  /** Reopening and committing without staging anything: the reported size grows by exactly one
      block each time, while every block of the file stays readable. */
  lemma ReopenAndCommit(c: Cipher, bs: BlockSize, v: FileView, m: ChunkMeta)
    requires IsCommitted(bs, v, m)
    ensures var (r, w) := Committed(bs, v);
            && r.Ok? && IsCommitted(bs, w, OnePast(m))
            && SizeOf(bs, w) == Ok(SizeInMemory(bs, m) + bs)
            && forall i: nat :: i <= m.farthestBlockSeen ==>
                 ReadBlock(c, bs, w.content.value, i) == ReadBlock(c, bs, v.content.value, i)
  {
    ReopenIsOnePast(bs, v, m);
    CommitMakesCommitted(bs, Opened(bs, v).1, OnePast(m));
    forall i: nat | i <= m.farthestBlockSeen
      ensures ReadBlock(c, bs, Committed(bs, v).1.content.value, i) == ReadBlock(c, bs, v.content.value, i)
    {
      ChunksDisjoint(bs, i, m.farthestBlockSeen + 1);
      CommitKeepsBlocks(c, bs, v.content.value, OnePast(m), i);
    }
  }

  // ----- any sequence of calls into a reopened file -----

  /** The record after the first `k` calls, made one after the other. */
  function Noted(bs: BlockSize, m: ChunkMeta, calls: seq<Call>, k: nat): ChunkMeta
    requires k <= |calls|
  {
    if k == 0 then m else NoteBlock(Noted(bs, m, calls, k - 1), calls[k - 1].block, PaddingOf(bs, calls[k - 1].data))
  }

  /** Call `i` went farther than the start and than every call before it. */
  predicate Reaches(m: ChunkMeta, calls: seq<Call>, i: nat)
    requires i < |calls|
  {
    calls[i].block > m.farthestBlockSeen && forall j :: 0 <= j < i ==> calls[j].block < calls[i].block
  }

  /** The record is the one it started from, or that of the call that first reached the farthest
      block; no call went farther. */
  lemma {:induction false} NotedIsFarthest(bs: BlockSize, m: ChunkMeta, calls: seq<Call>, k: nat)
    requires k <= |calls|
    ensures var r := Noted(bs, m, calls, k);
            && r.farthestBlockSeen >= m.farthestBlockSeen
            && (forall i :: 0 <= i < k ==> calls[i].block <= r.farthestBlockSeen)
            && (r == m || exists i :: 0 <= i < k && Reaches(m, calls, i) && r == ChunkMeta(calls[i].block, PaddingOf(bs, calls[i].data)))
  {
    if k > 0 {
      NotedIsFarthest(bs, m, calls, k - 1);
      var before, r := Noted(bs, m, calls, k - 1), Noted(bs, m, calls, k);
      if r != before {
        assert Reaches(m, calls, k - 1);
      }
    }
  }

  /** Starting one block farther makes no difference once a call goes beyond that, and wins until then. */
  lemma {:induction false} NotedFromOnePast(bs: BlockSize, m: ChunkMeta, calls: seq<Call>, k: nat)
    requires k <= |calls|
    ensures var r := Noted(bs, m, calls, k);
            && (r.farthestBlockSeen == m.farthestBlockSeen ==> r == m)
            && Noted(bs, OnePast(m), calls, k) == if r.farthestBlockSeen > m.farthestBlockSeen + 1 then r else OnePast(m)
    ensures Noted(bs, m, calls, k).farthestBlockSeen >= m.farthestBlockSeen
  {
    if k > 0 { NotedFromOnePast(bs, m, calls, k - 1); }
  }

  /** The stored bytes after the first `k` calls. */
  function Written(f: File, bytes: seq<byte>, k: nat): seq<byte>
    requires k <= |f.calls|
  {
    if k == 0 then bytes
    else
      var call := f.calls[k - 1];
      WriteChunk(f.cipher, f.bs, Written(f, bytes, k - 1), call.block, call.nonce, call.data)
  }

  /** A call into a file that is open, or opens, with record `m`. */
  lemma StagedOnOpened(c: Cipher, bs: BlockSize, w: FileView, m: ChunkMeta, bytes: seq<byte>, i: nat, data: seq<byte>, nonce: Nonce)
    requires Opened(bs, w) == (Ok(m), FileView(Some(bytes), true, Some(m)))
    ensures Staged(c, bs, w, BlockOffset(bs, i), data, Some(nonce)).1
         == FileView(Some(WriteChunk(c, bs, bytes, i, nonce, data)), true, Some(NoteBlock(m, i, PaddingOf(bs, data))))
  {
    BlockAtSpan(bs, i, 0);
  }

  lemma OpenStaysOpen(bs: BlockSize, bytes: seq<byte>, m: ChunkMeta)
    ensures Opened(bs, FileView(Some(bytes), true, Some(m))) == (Ok(m), FileView(Some(bytes), true, Some(m)))
  {
  }

  /** The first call reopens the file; the others go on from there. */
  lemma {:induction false} StagedIntoReopened(f: File, v: FileView, m: ChunkMeta, k: nat)
    requires IsCommitted(f.bs, v, m) && k <= |f.calls|
    ensures var w := StageAll(f, v, k);
            Opened(f.bs, w) == (Ok(Noted(f.bs, OnePast(m), f.calls, k)),
                                FileView(Some(Written(f, v.content.value, k)), true, Some(Noted(f.bs, OnePast(m), f.calls, k))))
  {
    if k == 0 {
      ReopenIsOnePast(f.bs, v, m);
    } else {
      StagedIntoReopened(f, v, m, k - 1);
      var call := f.calls[k - 1];
      StagedOnOpened(f.cipher, f.bs, StageAll(f, v, k - 1), Noted(f.bs, OnePast(m), f.calls, k - 1),
                     Written(f, v.content.value, k - 1), call.block, call.data, call.nonce);
      OpenStaysOpen(f.bs, Written(f, v.content.value, k), Noted(f.bs, OnePast(m), f.calls, k));
    }
  }

  /** The bytes hold every block of the old file and every staged one, and do not reach past the block
      the record names. */
  ghost predicate Fits(f: File, m: ChunkMeta, bytes: seq<byte>, k: nat)
    requires k <= |f.calls|
  {
    && ChunkOffset(f.bs, m.farthestBlockSeen + 1) <= |bytes|
    && |bytes| <= ChunkOffset(f.bs, Noted(f.bs, OnePast(m), f.calls, k).farthestBlockSeen + 1)
    && forall b :: b in Blocks(f.calls, k) ==> ChunkOffset(f.bs, b + 1) <= |bytes|
  }

  /** Staged blocks decrypt to the last data staged, the other blocks of the old file as they did. */
  ghost predicate ReadsAs(f: File, m: ChunkMeta, stored: seq<byte>, bytes: seq<byte>, k: nat)
    requires k <= |f.calls|
  {
    && (forall b :: b in Blocks(f.calls, k) ==> ReadBlock(f.cipher, f.bs, bytes, b) == Ok(PadToBlock(f.bs, Blocks(f.calls, k)[b])))
    && (forall b: nat :: b <= m.farthestBlockSeen && b !in Blocks(f.calls, k) ==>
          ReadBlock(f.cipher, f.bs, bytes, b) == ReadBlock(f.cipher, f.bs, stored, b))
  }

  lemma NextFits(f: File, m: ChunkMeta, bytes: seq<byte>, k: nat)
    requires f.Legal() && 0 < k <= |f.calls| && m.farthestBlockSeen >= 0 && Fits(f, m, bytes, k - 1)
    ensures var call := f.calls[k - 1];
            Fits(f, m, WriteChunk(f.cipher, f.bs, bytes, call.block, call.nonce, call.data), k)
  {
    var call := f.calls[k - 1];
    WriteChunkFraming(f.cipher, f.bs, bytes, call.block, call.nonce, call.data);
    var before := Noted(f.bs, OnePast(m), f.calls, k - 1).farthestBlockSeen;
    if call.block < before {
      SpanGrows(ChunkSize(f.bs), call.block + 1, before + 1);
    } else {
      SpanGrows(ChunkSize(f.bs), before + 1, call.block + 1);
    }
  }

  lemma NextReadsAs(f: File, m: ChunkMeta, stored: seq<byte>, bytes: seq<byte>, k: nat)
    requires f.Legal() && 0 < k <= |f.calls| && Fits(f, m, bytes, k - 1) && ReadsAs(f, m, stored, bytes, k - 1)
    ensures var call := f.calls[k - 1];
            ReadsAs(f, m, stored, WriteChunk(f.cipher, f.bs, bytes, call.block, call.nonce, call.data), k)
  {
    var call := f.calls[k - 1];
    WriteChunkFraming(f.cipher, f.bs, bytes, call.block, call.nonce, call.data);
    forall b: nat | b <= m.farthestBlockSeen && b !in Blocks(f.calls, k)
      ensures b != call.block && ChunkOffset(f.bs, b + 1) <= |bytes|
    {
      SpanGrows(ChunkSize(f.bs), b + 1, m.farthestBlockSeen + 1);
    }
  }

  lemma {:induction false} WrittenReadsAs(f: File, v: FileView, m: ChunkMeta, k: nat)
    requires f.Legal() && IsCommitted(f.bs, v, m) && k <= |f.calls|
    ensures Fits(f, m, Written(f, v.content.value, k), k)
    ensures ReadsAs(f, m, v.content.value, Written(f, v.content.value, k), k)
  {
    if k == 0 {
      assert ChunkOffset(f.bs, m.farthestBlockSeen + 2) == ChunkOffset(f.bs, m.farthestBlockSeen + 1) + ChunkSize(f.bs);
    } else {
      WrittenReadsAs(f, v, m, k - 1);
      NextFits(f, m, Written(f, v.content.value, k - 1), k);
      NextReadsAs(f, m, v.content.value, Written(f, v.content.value, k - 1), k);
    }
  }

  lemma CommitReadsAs(f: File, m: ChunkMeta, stored: seq<byte>, bytes: seq<byte>)
    requires f.Legal() && Fits(f, m, bytes, |f.calls|) && ReadsAs(f, m, stored, bytes, |f.calls|)
    ensures ReadsAs(f, m, stored, CommitBytes(f.bs, bytes, Noted(f.bs, OnePast(m), f.calls, |f.calls|)), |f.calls|)
  {
    var n := |f.calls|;
    var r := Noted(f.bs, OnePast(m), f.calls, n);
    NotedIsFarthest(f.bs, OnePast(m), f.calls, n);
    forall b: nat | b in Blocks(f.calls, n) || b <= m.farthestBlockSeen
      ensures ReadBlock(f.cipher, f.bs, CommitBytes(f.bs, bytes, r), b) == ReadBlock(f.cipher, f.bs, bytes, b)
    {
      if b in Blocks(f.calls, n) {
        var i := BlockIsStaged(f.calls, n, b);
      } else {
        SpanGrows(ChunkSize(f.bs), b + 1, m.farthestBlockSeen + 1);
      }
      CommitKeepsBlocks(f.cipher, f.bs, bytes, r, b);
    }
  }

  lemma {:induction false} BlockIsStaged(calls: seq<Call>, k: nat, b: nat) returns (i: nat)
    requires k <= |calls| && b in Blocks(calls, k)
    ensures i < k && calls[i].block == b
  {
    if calls[k - 1].block == b { i := k - 1; } else { i := BlockIsStaged(calls, k - 1, b); }
  }

  /** A committed file is reopened, staged into by any calls of at most one block each, and committed:
      it is a committed file again, whose record is the calls noted on top of the block one past the
      old end; every staged block reads back, and so does every old block that was not staged. */
  lemma ReopenStageCommit(f: File, v: FileView, m: ChunkMeta)
    requires f.Legal() && IsCommitted(f.bs, v, m)
    ensures var n := |f.calls|;
            var r := Noted(f.bs, OnePast(m), f.calls, n);
            var (ok, w) := Committed(f.bs, StageAll(f, v, n));
            && ok.Ok? && IsCommitted(f.bs, w, r)
            && SizeOf(f.bs, w) == Ok(SizeInMemory(f.bs, r))
            && ReadsAs(f, m, v.content.value, w.content.value, n)
  {
    var n := |f.calls|;
    var r := Noted(f.bs, OnePast(m), f.calls, n);
    var bytes := Written(f, v.content.value, n);
    StagedIntoReopened(f, v, m, n);
    WrittenReadsAs(f, v, m, n);
    CommitReadsAs(f, m, v.content.value, bytes);
    NotedIsFarthest(f.bs, OnePast(m), f.calls, n);
    CommitMakesCommitted(f.bs, FileView(Some(bytes), true, Some(r)), r);
  }

  /** The size is the one the same calls would have given before the commit if and only if they go more
      than one block past the old end, or end with the next block and the padding of the old last one.
      Rewriting existing blocks, and appending the next one with any other padding, report a wrong size. */
  lemma ReopenSizeExactlyWhen(f: File, v: FileView, m: ChunkMeta)
    requires f.Legal() && IsCommitted(f.bs, v, m)
    ensures var n := |f.calls|;
            var wanted := Noted(f.bs, m, f.calls, n);
            SizeOf(f.bs, Committed(f.bs, StageAll(f, v, n)).1) == Ok(SizeInMemory(f.bs, wanted)) <==>
              wanted.farthestBlockSeen > m.farthestBlockSeen + 1 || wanted == OnePast(m)
  {
    ReopenStageCommit(f, v, m);
    NotedFromOnePast(f.bs, m, f.calls, |f.calls|);
    SameSizeExactlyWhen(f.bs, m, Noted(f.bs, m, f.calls, |f.calls|));
  }

  lemma SameSizeExactlyWhen(bs: BlockSize, m: ChunkMeta, wanted: ChunkMeta)
    requires m.farthestBlockSeen >= 0 && wanted.farthestBlockSeen >= m.farthestBlockSeen
    requires wanted.farthestBlockSeen == m.farthestBlockSeen ==> wanted == m
    ensures SizeInMemory(bs, if wanted.farthestBlockSeen > m.farthestBlockSeen + 1 then wanted else OnePast(m))
              == SizeInMemory(bs, wanted) <==>
            wanted.farthestBlockSeen > m.farthestBlockSeen + 1 || wanted == OnePast(m)
  {
  }
}
