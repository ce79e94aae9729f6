/** Blocks of a freshly created file staged by concurrent calls. A call is two atomic steps, the
    chunk write and the locked update of the last-chunk record, and steps of different calls
    interleave freely. The theorems hold in every reachable state of every interleaving. */
module ConcurrentStaging {
  import opened Outcomes
  import opened ByteStore
  import opened Aead
  import opened ChunkedFile

  /** One StageData call, at the block-aligned offset `block * bs`. */
  datatype Call = Call(block: nat, data: seq<byte>, nonce: Nonce)

  datatype Phase = Waiting | Written | Finished

  /** `writer[b]` is the call that wrote block `b` last. */
  datatype State = State(bytes: seq<byte>, record: ChunkMeta, phases: seq<Phase>, writer: map<nat, nat>)

  datatype File = File(cipher: Cipher, bs: BlockSize, calls: seq<Call>)
  {
    /** Every staged buffer fits in a block; the cipher keeps its contract. */
    ghost predicate Legal() {
      && cipher.Sound()
      && forall i :: 0 <= i < |calls| ==> |calls[i].data| <= bs
    }

    function Init(): State {
      State([], NO_BLOCK, seq(|calls|, _ => Waiting), map[])
    }

    predicate CanWrite(s: State, i: nat) {
      i < |calls| == |s.phases| && s.phases[i] == Waiting
    }

    function DoWrite(s: State, i: nat): State
      requires CanWrite(s, i)
    {
      var call := calls[i];
      s.(bytes := WriteChunk(cipher, bs, s.bytes, call.block, call.nonce, call.data),
         phases := s.phases[i := Written],
         writer := s.writer[call.block := i])
    }

    predicate CanRecord(s: State, i: nat) {
      i < |calls| == |s.phases| && s.phases[i] == Written
    }

    function DoRecord(s: State, i: nat): State
      requires CanRecord(s, i)
    {
      s.(record := NoteBlock(s.record, calls[i].block, PaddingOf(bs, calls[i].data)),
         phases := s.phases[i := Finished])
    }

    predicate WriteStep(s: State, s': State, i: nat) { CanWrite(s, i) && s' == DoWrite(s, i) }

    predicate RecordStep(s: State, s': State, i: nat) { CanRecord(s, i) && s' == DoRecord(s, i) }

    ghost predicate Step(s: State, s': State) {
      exists i: nat :: WriteStep(s, s', i) || RecordStep(s, s', i)
    }

    /** A run that ends in `s`: the initial state, or a run extended by one step. */
    ghost predicate Run(run: seq<State>, s: State) {
      && run != [] && run[|run| - 1] == s
      && if |run| == 1 then s == Init()
         else Run(run[..|run| - 1], run[|run| - 2]) && Step(run[|run| - 2], s)
    }

    ghost predicate Reachable(s: State) { exists run: seq<State> :: Run(run, s) }

    ghost predicate AllFinished(s: State) {
      |s.phases| == |calls| && forall i :: 0 <= i < |calls| ==> s.phases[i] == Finished
    }

    // ----- the invariant -----

    /** The last writer of block `b` is a call that has written it, and the chunk lies in the file. */
    ghost predicate Placed(s: State, b: nat) {
      && b in s.writer && s.writer[b] < |calls| == |s.phases|
      && calls[s.writer[b]].block == b
      && s.phases[s.writer[b]] != Waiting
      && ChunkOffset(bs, b + 1) <= |s.bytes|
    }

    /** Block `b` decrypts to what its last writer staged. */
    ghost predicate Stored(s: State, b: nat) {
      Placed(s, b) && ReadBlock(cipher, bs, s.bytes, b) == Ok(PadToBlock(bs, calls[s.writer[b]].data))
    }

    ghost predicate RecordedBy(s: State, i: nat) {
      && i < |calls| == |s.phases| && s.phases[i] == Finished
      && s.record == ChunkMeta(calls[i].block, PaddingOf(bs, calls[i].data))
    }

    /** The record is that of a finished call, and no finished call went farther. */
    ghost predicate RecordInv(s: State) {
      && |s.phases| == |calls|
      && (s.record == NO_BLOCK || exists i: nat :: RecordedBy(s, i))
      && (forall i :: 0 <= i < |calls| && s.phases[i] == Finished ==>
            calls[i].block <= s.record.farthestBlockSeen)
    }

    ghost predicate Shape(s: State) {
      && RecordInv(s)
      && (forall b :: b in s.writer ==> Placed(s, b))
      && (forall i :: 0 <= i < |calls| && s.phases[i] != Waiting ==> calls[i].block in s.writer)
      && (s.bytes == [] || exists b :: b in s.writer && |s.bytes| == ChunkOffset(bs, b + 1))
    }

    ghost predicate Contents(s: State) { forall b :: b in s.writer ==> Stored(s, b) }

    lemma WriteKeepsShape(s: State, i: nat)
      requires Legal() && Shape(s) && CanWrite(s, i)
      ensures Shape(DoWrite(s, i))
    {
      var s' := DoWrite(s, i);
      var call := calls[i];
      WriteChunkFraming(cipher, bs, s.bytes, call.block, call.nonce, call.data);
      forall b | b in s'.writer ensures Placed(s', b) {
        if b != call.block { assert Placed(s, b); }
      }
      if |s'.bytes| == ChunkOffset(bs, call.block + 1) {
        assert call.block in s'.writer;
      } else {
        var b :| b in s.writer && |s.bytes| == ChunkOffset(bs, b + 1);
        assert b in s'.writer;
      }
      if s.record != NO_BLOCK {
        var k: nat :| RecordedBy(s, k);
        assert RecordedBy(s', k);
      }
    }

    lemma WriteKeepsContents(s: State, i: nat)
      requires Legal() && Shape(s) && Contents(s) && CanWrite(s, i)
      ensures Contents(DoWrite(s, i))
    {
      var s' := DoWrite(s, i);
      var call := calls[i];
      WriteKeepsShape(s, i);
      WriteChunkFraming(cipher, bs, s.bytes, call.block, call.nonce, call.data);
      forall b | b in s'.writer ensures Stored(s', b) {
        if b != call.block { assert Stored(s, b); }
      }
    }

    lemma RecordKeepsInv(s: State, i: nat)
      requires Shape(s) && Contents(s) && CanRecord(s, i)
      ensures Shape(DoRecord(s, i)) && Contents(DoRecord(s, i))
    {
      var s' := DoRecord(s, i);
      forall b | b in s'.writer ensures Stored(s', b) { assert Stored(s, b); }
      if s'.record == s.record {
        if s.record != NO_BLOCK {
          var k: nat :| RecordedBy(s, k);
          assert RecordedBy(s', k);
        }
      } else {
        assert RecordedBy(s', i);
      }
    }

    lemma {:induction false} RunKeepsInv(run: seq<State>, s: State)
      requires Legal() && Run(run, s)
      ensures Shape(s) && Contents(s)
    {
      if |run| > 1 {
        var r := run[|run| - 2];
        RunKeepsInv(run[..|run| - 1], r);
        var i: nat :| WriteStep(r, s, i) || RecordStep(r, s, i);
        if WriteStep(r, s, i) {
          WriteKeepsShape(r, i);
          WriteKeepsContents(r, i);
        } else {
          RecordKeepsInv(r, i);
        }
      }
    }

    lemma ReachableInv(s: State)
      requires Legal() && Reachable(s)
      ensures Shape(s) && Contents(s)
    {
      var run: seq<State> :| Run(run, s);
      RunKeepsInv(run, s);
    }

    // ----- safety: the record never runs ahead of the data -----

    /** In every reachable state the block named by the record is completely stored, and a call to
        that block has finished with the recorded padding. */
    lemma FarthestBlockIsStored(s: State)
      requires Legal() && Reachable(s) && s.record.farthestBlockSeen != -1
      ensures Stored(s, s.record.farthestBlockSeen)
      ensures 0 <= s.record.paddingLength <= bs
      ensures exists i: nat :: RecordedBy(s, i) && calls[i].block == s.record.farthestBlockSeen
    {
      ReachableInv(s);
      var i: nat :| RecordedBy(s, i);
      assert calls[i].block in s.writer;
    }

    // ----- every interleaving of calls to distinct blocks ends in the same file -----

    ghost predicate DistinctBlocks() {
      forall i, j :: 0 <= i < j < |calls| ==> calls[i].block != calls[j].block
    }

    /** When every call has finished the file ends with the farthest chunk. */
    lemma FinishedShape(s: State)
      requires Shape(s) && AllFinished(s) && calls != []
      ensures exists i: nat :: RecordedBy(s, i)
      ensures s.record.farthestBlockSeen >= 0
      ensures |s.bytes| == ChunkOffset(bs, s.record.farthestBlockSeen + 1)
    {
      assert s.phases[0] == Finished;
      var i: nat :| RecordedBy(s, i);
      var f := calls[i].block;
      assert Placed(s, f);
      ChunksDisjoint(bs, f, f + 1);
      var b :| b in s.writer && |s.bytes| == ChunkOffset(bs, b + 1);
      assert Placed(s, b);
      if b < f { ChunksDisjoint(bs, b + 1, f + 1); }
    }

    lemma InterleavingsAgree(s: State, t: State)
      requires Legal() && DistinctBlocks()
      requires Reachable(s) && AllFinished(s) && Reachable(t) && AllFinished(t)
      ensures s.record == t.record && s.writer == t.writer && |s.bytes| == |t.bytes|
      ensures forall b :: b in s.writer ==>
                ReadBlock(cipher, bs, s.bytes, b) == ReadBlock(cipher, bs, t.bytes, b)
    {
      ReachableInv(s);
      ReachableInv(t);
      SameWriter(s, t);
      SameWriter(t, s);
      SameRecord(s, t);
      SameLength(s, t);
      SameContents(s, t);
    }

    lemma SameContents(s: State, t: State)
      requires Contents(s) && Contents(t) && s.writer == t.writer
      ensures forall b :: b in s.writer ==>
                ReadBlock(cipher, bs, s.bytes, b) == ReadBlock(cipher, bs, t.bytes, b)
    {
      forall b | b in s.writer
        ensures ReadBlock(cipher, bs, s.bytes, b) == ReadBlock(cipher, bs, t.bytes, b)
      {
        assert Stored(s, b) && Stored(t, b);
      }
    }

    /** The size a committed file reports is the size memory reported just before the commit,
        whatever was staged and in whatever order it finished. */
    lemma SizesAgree(s: State)
      requires Legal() && Reachable(s) && AllFinished(s)
      ensures SizeOnDisk(bs, CommitBytes(bs, s.bytes, s.record)) == SizeInMemory(bs, s.record)
      ensures 0 <= s.record.paddingLength <= bs
    {
      ReachableInv(s);
      if calls != [] {
        FinishedShape(s);
        CommitFraming(bs, s.bytes, s.record);
      }
    }

    lemma SameRecord(s: State, t: State)
      requires DistinctBlocks() && RecordInv(s) && AllFinished(s) && RecordInv(t) && AllFinished(t)
      ensures s.record == t.record
    {
      if calls != [] {
        assert s.phases[0] == Finished && t.phases[0] == Finished;
        var i: nat :| RecordedBy(s, i);
        var j: nat :| RecordedBy(t, j);
        assert s.phases[j] == Finished && t.phases[i] == Finished;
        assert i == j;
      }
    }

    lemma SameLength(s: State, t: State)
      requires Shape(s) && AllFinished(s) && Shape(t) && AllFinished(t) && s.record == t.record
      ensures |s.bytes| == |t.bytes|
    {
      if calls != [] {
        FinishedShape(s);
        FinishedShape(t);
      }
    }

    lemma SameWriter(s: State, t: State)
      requires DistinctBlocks() && Shape(s) && AllFinished(s) && Shape(t) && AllFinished(t)
      ensures forall b :: b in s.writer ==> b in t.writer && s.writer[b] == t.writer[b]
    {
      forall b | b in s.writer ensures b in t.writer && s.writer[b] == t.writer[b] {
        assert Placed(s, b);
        assert calls[s.writer[b]].block in t.writer;
        assert Placed(t, b);
      }
    }

    // ----- the stored file is the byte sequence that was staged -----

    /** The calls cover blocks 0..last, every block before `last` is full, and `last` is always
        staged with `tail` bytes. A block may be staged any number of times. */
    ghost predicate Covers(last: nat, tail: nat) {
      && tail <= bs
      && (forall i :: 0 <= i < |calls| ==>
            && calls[i].block <= last
            && |calls[i].data| == if calls[i].block == last then tail else bs)
      && forall b :: 0 <= b <= last ==> Staged(b)
    }

    ghost predicate Staged(b: nat) { exists i :: 0 <= i < |calls| && calls[i].block == b }

    /** What the last writer of block `b` staged. */
    function Block(s: State, b: nat): seq<byte> {
      if b in s.writer && s.writer[b] < |calls| then calls[s.writer[b]].data else []
    }

    /** The plaintext of blocks 0..n-1. */
    function Logical(s: State, n: nat): seq<byte> {
      if n == 0 then [] else Logical(s, n - 1) + Block(s, n - 1)
    }

    lemma {:induction false} LogicalBlock(s: State, n: nat, b: nat)
      requires forall k :: 0 <= k < n - 1 ==> |Block(s, k)| == bs
      requires b < n
      ensures |Logical(s, n)| == BlockOffset(bs, n - 1) + |Block(s, n - 1)|
      ensures BlockOffset(bs, b) <= |Logical(s, n)|
      ensures Block(s, b) <= Logical(s, n)[BlockOffset(bs, b)..]
    {
      var d := Block(s, n - 1);
      if n == 1 {
        assert Logical(s, n) == d;
      } else {
        LogicalBlock(s, n - 1, if b < n - 1 then b else 0);
        var at := BlockOffset(bs, b);
        if b < n - 1 {
          assert Logical(s, n)[at..] == Logical(s, n - 1)[at..] + d;
        } else {
          assert Logical(s, n)[at..] == d;
        }
      }
    }

    /** When every call has finished: each block is stored, the record is the last block with its
        padding, and the file ends with that block. */
    lemma FinishedFile(s: State, last: nat, tail: nat)
      requires Legal() && Covers(last, tail) && Reachable(s) && AllFinished(s)
      ensures forall b :: 0 <= b <= last ==>
                Stored(s, b) && |Block(s, b)| == if b == last then tail else bs
      ensures s.record == ChunkMeta(last, bs - tail)
      ensures |s.bytes| == ChunkOffset(bs, last + 1)
    {
      ReachableInv(s);
      forall b | 0 <= b <= last
        ensures Stored(s, b) && |Block(s, b)| == if b == last then tail else bs
      {
        StagedIsPlaced(s, b);
      }
      CoveredRecord(s, last, tail);
    }

    /** After any interleaving, a commit stores exactly the staged bytes: the size reported from
        memory and the size recomputed from the file are both the length of the plaintext. */
    lemma CommittedSize(s: State, last: nat, tail: nat)
      requires Legal() && Covers(last, tail) && Reachable(s) && AllFinished(s)
      ensures |Logical(s, last + 1)| == BlockOffset(bs, last) + tail
      ensures SizeInMemory(bs, s.record) == |Logical(s, last + 1)|
      ensures SizeOnDisk(bs, CommitBytes(bs, s.bytes, s.record)) == |Logical(s, last + 1)|
    {
      FinishedFile(s, last, tail);
      LogicalBlock(s, last + 1, last);
      CommitFraming(bs, s.bytes, s.record);
    }

    lemma StagedIsPlaced(s: State, b: nat)
      requires Shape(s) && AllFinished(s) && Staged(b)
      ensures Placed(s, b)
    {
      var i :| 0 <= i < |calls| && calls[i].block == b;
      assert s.phases[i] == Finished;
    }

    lemma CoveredRecord(s: State, last: nat, tail: nat)
      requires Shape(s) && AllFinished(s) && Covers(last, tail)
      ensures s.record == ChunkMeta(last, bs - tail)
      ensures |s.bytes| == ChunkOffset(bs, last + 1)
    {
      assert Staged(last);
      FinishedShape(s);
      var i :| 0 <= i < |calls| && calls[i].block == last;
      assert s.phases[i] == Finished;
      var k: nat :| RecordedBy(s, k);
    }

    /** Any read of at least one byte, at any offset in block `b` and with any buffer: the number of
        bytes reported is cut off at the end of the file, and what is copied is block `b` from its
        first byte. */
    lemma ReadCopiesBlock(s: State, last: nat, tail: nat, b: nat, skip: nat, buffer: seq<byte>)
      requires Legal() && Covers(last, tail) && Reachable(s) && AllFinished(s)
      requires buffer != [] && skip < bs && BlockOffset(bs, b) + skip < |Logical(s, last + 1)|
      ensures ReadInto(cipher, bs, Some(CommitBytes(bs, s.bytes, s.record)), |Logical(s, last + 1)|,
                       BlockOffset(bs, b) + skip, buffer)
           == Ok((ReadLength(|Logical(s, last + 1)|, BlockOffset(bs, b) + skip, |buffer|),
                  CopyInto(buffer, PadToBlock(bs, Block(s, b)))))
    {
      assert ReadBlock(cipher, bs, CommitBytes(bs, s.bytes, s.record), b) == Ok(PadToBlock(bs, Block(s, b))) by {
        PlainBlock(s, last, tail, b);
        StoredBlock(s, last, tail, b);
      }
      ReadIntoBlock(cipher, bs, CommitBytes(bs, s.bytes, s.record), |Logical(s, last + 1)|, b, skip, buffer,
                    PadToBlock(bs, Block(s, b)));
    }

    /** Round trip: a block-aligned read of at most one block returns exactly that slice. */
    lemma ReadReturnsSlice(s: State, last: nat, tail: nat, b: nat, buffer: seq<byte>)
      requires Legal() && Covers(last, tail) && Reachable(s) && AllFinished(s)
      requires BlockOffset(bs, b) <= |Logical(s, last + 1)|
      requires ReadLength(|Logical(s, last + 1)|, BlockOffset(bs, b), |buffer|) <= bs
      ensures ReadsBack(s, last, BlockOffset(bs, b), buffer)
    {
      var stored, plain := CommitBytes(bs, s.bytes, s.record), Logical(s, last + 1);
      if ReadLength(|plain|, BlockOffset(bs, b), |buffer|) == 0 {
        EmptyReadDelivers(cipher, bs, stored, plain, BlockOffset(bs, b), buffer);
      } else {
        PlainBlock(s, last, tail, b);
        StoredBlock(s, last, tail, b);
        BlockReadDelivers(cipher, bs, stored, plain, b, buffer, Block(s, b));
      }
    }

    /** After the commit, a read at `offset` fills the buffer with the plaintext found there and
        reports how much that is. */
    ghost predicate ReadsBack(s: State, last: nat, offset: nat, buffer: seq<byte>) {
      Delivers(cipher, bs, CommitBytes(bs, s.bytes, s.record), Logical(s, last + 1), offset, buffer)
    }

    /** Where the plaintext of block `b` sits in the file. */
    lemma PlainBlock(s: State, last: nat, tail: nat, b: nat)
      requires Legal() && Covers(last, tail) && Reachable(s) && AllFinished(s)
      requires BlockOffset(bs, b) < |Logical(s, last + 1)|
      ensures b <= last
      ensures Block(s, b) <= Logical(s, last + 1)[BlockOffset(bs, b)..]
      ensures |Block(s, b)| == if b == last then |Logical(s, last + 1)| - BlockOffset(bs, b) else bs
    {
      BlockSizes(s, last, tail);
      LogicalBlock(s, last + 1, last);
      BlockWithin(bs, b, last, tail);
      LogicalBlock(s, last + 1, b);
    }

    lemma BlockSizes(s: State, last: nat, tail: nat)
      requires Legal() && Covers(last, tail) && Reachable(s) && AllFinished(s)
      ensures forall k :: 0 <= k <= last ==> |Block(s, k)| == if k == last then tail else bs
    {
      FinishedFile(s, last, tail);
    }

    /** The commit leaves every block readable. */
    lemma StoredBlock(s: State, last: nat, tail: nat, b: nat)
      requires Legal() && Covers(last, tail) && Reachable(s) && AllFinished(s) && b <= last
      ensures ReadBlock(cipher, bs, CommitBytes(bs, s.bytes, s.record), b) == Ok(PadToBlock(bs, Block(s, b)))
    {
      FinishedFile(s, last, tail);
      assert Stored(s, b);
      CommitKeepsBlocks(cipher, bs, s.bytes, s.record, b);
    }
  }

  /** A read of at least one byte in block `b`, once the block decrypts to `plain`. */
  lemma ReadIntoBlock(c: Cipher, bs: BlockSize, stored: seq<byte>, size: nat, b: nat, skip: nat, buffer: seq<byte>,
                      plain: seq<byte>)
    requires buffer != [] && skip < bs && BlockOffset(bs, b) + skip < size && ReadBlock(c, bs, stored, b) == Ok(plain)
    ensures ReadInto(c, bs, Some(stored), size, BlockOffset(bs, b) + skip, buffer)
         == Ok((ReadLength(size, BlockOffset(bs, b) + skip, |buffer|), CopyInto(buffer, plain)))
  {
    BlockAtSpan(bs, b, skip);
  }

  /** A read of a stored file at `offset` fills the buffer with that part of `plain`. */
  ghost predicate Delivers(c: Cipher, bs: BlockSize, stored: seq<byte>, plain: seq<byte>, offset: nat, buffer: seq<byte>) {
    var r := ReadInto(c, bs, Some(stored), |plain|, offset, buffer);
    && offset <= |plain|
    && var n := ReadLength(|plain|, offset, |buffer|);
       r.Ok? && r.value.0 == n && |r.value.1| == |buffer| && r.value.1[..n] == plain[offset..offset + n]
  }

  lemma EmptyReadDelivers(c: Cipher, bs: BlockSize, stored: seq<byte>, plain: seq<byte>, offset: nat, buffer: seq<byte>)
    requires offset <= |plain| && ReadLength(|plain|, offset, |buffer|) == 0
    ensures Delivers(c, bs, stored, plain, offset, buffer)
  {
  }

  lemma BlockReadDelivers(c: Cipher, bs: BlockSize, stored: seq<byte>, plain: seq<byte>, b: nat, buffer: seq<byte>, block: seq<byte>)
    requires BlockOffset(bs, b) < |plain| && block <= plain[BlockOffset(bs, b)..] && |block| <= bs
    requires 0 < ReadLength(|plain|, BlockOffset(bs, b), |buffer|) <= |block|
    requires ReadBlock(c, bs, stored, b) == Ok(PadToBlock(bs, block))
    ensures Delivers(c, bs, stored, plain, BlockOffset(bs, b), buffer)
  {
    var n := ReadLength(|plain|, BlockOffset(bs, b), |buffer|);
    ReadIntoBlock(c, bs, stored, |plain|, b, 0, buffer, PadToBlock(bs, block));
    CopiesStart(bs, plain, BlockOffset(bs, b), block, buffer, n);
  }

  /** What a read in block `b` that delivers puts at index `k`. */
  lemma DeliveredByte(c: Cipher, bs: BlockSize, stored: seq<byte>, plain: seq<byte>, b: nat, skip: nat, buffer: seq<byte>,
                      padded: seq<byte>, k: nat)
    requires skip < bs && BlockOffset(bs, b) + skip < |plain| && ReadBlock(c, bs, stored, b) == Ok(padded)
    requires k < ReadLength(|plain|, BlockOffset(bs, b) + skip, |buffer|)
    requires Delivers(c, bs, stored, plain, BlockOffset(bs, b) + skip, buffer)
    ensures CopyInto(buffer, padded)[k] == plain[BlockOffset(bs, b) + skip + k]
  {
    var offset := BlockOffset(bs, b) + skip;
    var n := ReadLength(|plain|, offset, |buffer|);
    ReadIntoBlock(c, bs, stored, |plain|, b, skip, buffer, padded);
    assert CopyInto(buffer, padded)[..n][k] == plain[offset..offset + n][k];
  }

  lemma CopiesStart(bs: BlockSize, plain: seq<byte>, at: nat, block: seq<byte>, buffer: seq<byte>, n: nat)
    requires at <= |plain| && block <= plain[at..] && n <= |buffer| && n <= |block| <= bs
    ensures at + n <= |plain| && CopyInto(buffer, PadToBlock(bs, block))[..n] == plain[at..at + n]
  {
    assert plain[at..at + n] == plain[at..][..n] == block[..n];
    assert PadToBlock(bs, block)[..n] == block[..n];
  }

  lemma BlockWithin(bs: BlockSize, b: nat, last: nat, tail: nat)
    requires tail <= bs && BlockOffset(bs, b) < BlockOffset(bs, last) + tail
    ensures b <= last
  {
    if b > last { SpanGrows(bs, last + 1, b); assert false; }
  }

  lemma {:induction false} SpanGrows(size: nat, m: nat, n: nat)
    requires m <= n
    ensures Span(size, m) <= Span(size, n)
  {
    if m < n { SpanGrows(size, m, n - 1); }
  }
}
