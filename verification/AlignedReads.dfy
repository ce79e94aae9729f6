/** Which reads return the plaintext they were asked for, whatever was staged: exactly those that
    start at a block boundary and stay within one block. */
module AlignedReads {
  import opened Outcomes
  import opened ByteStore
  import opened Aead
  import opened ChunkedFile
  import opened FileSession
  import opened ConcurrentStaging
  import opened FileRoundTrip

  /** `s` ends a run that staged blocks 0..last, the last one with `tail` bytes. */
  ghost predicate Ends(f: File, s: State, last: nat, tail: nat) {
    f.Legal() && f.Covers(last, tail) && f.Reachable(s) && f.AllFinished(s)
  }

  /** A read at `offset` with a buffer of `len` bytes returns the plaintext, for every plaintext of
      this shape, every interleaving that stages it and every initial buffer. */
  ghost predicate AlwaysReadsBack(c: Cipher, bs: BlockSize, last: nat, tail: nat, offset: nat, len: nat) {
    forall f: File, s: State, buffer: seq<byte> ::
      f.cipher == c && f.bs == bs && |buffer| == len ==> RunReadsBack(f, s, last, tail, offset, buffer)
  }

  ghost predicate RunReadsBack(f: File, s: State, last: nat, tail: nat, offset: nat, buffer: seq<byte>) {
    Ends(f, s, last, tail) ==> f.ReadsBack(s, last, offset, buffer)
  }

  // ----- every byte sequence can be staged -----

  /** Block `b` of a plaintext. */
  function Piece(bs: BlockSize, content: seq<byte>, b: nat): seq<byte> {
    var at := BlockOffset(bs, b);
    if |content| < at then []
    else if |content| < at + bs then content[at..]
    else content[at..at + bs]
  }

  function CallsFor(bs: BlockSize, content: seq<byte>, last: nat): (calls: seq<Call>)
    ensures |calls| == last + 1
    ensures forall b :: 0 <= b <= last ==> calls[b].block == b && calls[b].data == Piece(bs, content, b)
  {
    seq(last + 1, (b: nat) => Call(b, Piece(bs, content, b), Zeros(NONCE_SIZE)))
  }

  lemma CallsCover(c: Cipher, bs: BlockSize, content: seq<byte>, last: nat, tail: nat)
    requires c.Sound() && tail <= bs && |content| == BlockOffset(bs, last) + tail
    ensures var f := File(c, bs, CallsFor(bs, content, last));
            f.Legal() && f.Covers(last, tail)
  {
    var f := File(c, bs, CallsFor(bs, content, last));
    forall b | 0 <= b <= last
      ensures f.Staged(b) && |f.calls[b].data| == if b == last then tail else bs
    {
      assert f.calls[b].block == b;
      if b < last { SpanGrows(bs, b + 1, last); }
    }
  }

  lemma {:induction false} PiecesJoin(f: File, s: State, content: seq<byte>, n: nat)
    requires BlockOffset(f.bs, n) <= |content|
    requires forall b :: 0 <= b < n ==> f.Block(s, b) == Piece(f.bs, content, b)
    ensures f.Logical(s, n) == content[..BlockOffset(f.bs, n)]
  {
    if n > 0 {
      PiecesJoin(f, s, content, n - 1);
      SlicesJoin(content, BlockOffset(f.bs, n - 1), f.bs);
    }
  }

  lemma SlicesJoin(content: seq<byte>, at: nat, n: nat)
    requires at + n <= |content|
    ensures content[..at] + content[at..at + n] == content[..at + n]
  {
  }

  lemma LastPiece(bs: BlockSize, content: seq<byte>, last: nat)
    requires BlockOffset(bs, last) <= |content| <= BlockOffset(bs, last) + bs
    ensures content[..BlockOffset(bs, last)] + Piece(bs, content, last) == content
  {
  }

  /** For every plaintext there is a run that stages it. */
  lemma EveryPlaintextIsStaged(c: Cipher, bs: BlockSize, content: seq<byte>, last: nat, tail: nat)
    returns (f: File, s: State)
    requires c.Sound() && tail <= bs && |content| == BlockOffset(bs, last) + tail
    ensures f.cipher == c && f.bs == bs && Ends(f, s, last, tail) && f.Logical(s, last + 1) == content
  {
    f := File(c, bs, CallsFor(bs, content, last));
    CallsCover(c, bs, content, last, tail);
    s := SequentialCallsAreARun(f, ABSENT, |f.calls|);
    f.FinishedFile(s, last, tail);
    forall b | 0 <= b <= last ensures f.Block(s, b) == Piece(bs, content, b) {
      assert f.Stored(s, b);
    }
    PiecesJoin(f, s, content, last);
    LastPiece(bs, content, last);
  }

  // ----- reads that can go wrong -----

  /** What a read that starts in block `b` leaves in the buffer. */
  function Filled(f: File, s: State, b: nat, buffer: seq<byte>): seq<byte> {
    CopyInto(buffer, PadToBlock(f.bs, f.Block(s, b)))
  }

  lemma ReadBackByte(f: File, s: State, last: nat, tail: nat, b: nat, skip: nat, buffer: seq<byte>, k: nat)
    requires Ends(f, s, last, tail) && skip < f.bs && BlockOffset(f.bs, b) + skip < |f.Logical(s, last + 1)|
    requires k < ReadLength(|f.Logical(s, last + 1)|, BlockOffset(f.bs, b) + skip, |buffer|)
    requires f.ReadsBack(s, last, BlockOffset(f.bs, b) + skip, buffer)
    ensures Filled(f, s, b, buffer)[k] == f.Logical(s, last + 1)[BlockOffset(f.bs, b) + skip + k]
  {
    assert ReadBlock(f.cipher, f.bs, CommitBytes(f.bs, s.bytes, s.record), b) == Ok(PadToBlock(f.bs, f.Block(s, b))) by {
      f.PlainBlock(s, last, tail, b);
      f.StoredBlock(s, last, tail, b);
    }
    DeliveredByte(f.cipher, f.bs, CommitBytes(f.bs, s.bytes, s.record), f.Logical(s, last + 1), b, skip, buffer,
                  PadToBlock(f.bs, f.Block(s, b)), k);
  }

  lemma WrongByte(f: File, s: State, last: nat, tail: nat, b: nat, skip: nat, buffer: seq<byte>, k: nat)
    requires Ends(f, s, last, tail) && skip < f.bs && BlockOffset(f.bs, b) + skip < |f.Logical(s, last + 1)|
    requires k < ReadLength(|f.Logical(s, last + 1)|, BlockOffset(f.bs, b) + skip, |buffer|)
    requires Filled(f, s, b, buffer)[k] != f.Logical(s, last + 1)[BlockOffset(f.bs, b) + skip + k]
    ensures !f.ReadsBack(s, last, BlockOffset(f.bs, b) + skip, buffer)
  {
    if f.ReadsBack(s, last, BlockOffset(f.bs, b) + skip, buffer) {
      ReadBackByte(f, s, last, tail, b, skip, buffer, k);
      assert false;
    }
  }

  /** One wrong byte in one run is enough. */
  lemma WrongRun(f: File, s: State, last: nat, tail: nat, offset: nat, buffer: seq<byte>)
    requires Ends(f, s, last, tail) && !f.ReadsBack(s, last, offset, buffer)
    ensures !AlwaysReadsBack(f.cipher, f.bs, last, tail, offset, |buffer|)
  {
    assert !RunReadsBack(f, s, last, tail, offset, buffer);
  }

  lemma FirstByte(bs: BlockSize, content: seq<byte>, at: nat, block: seq<byte>, buffer: seq<byte>)
    requires at < |content| && block <= content[at..] && 0 < |block| <= bs && buffer != []
    ensures CopyInto(buffer, PadToBlock(bs, block))[0] == content[at]
  {
  }

  lemma BlockFits(f: File, s: State, b: nat)
    requires f.Legal()
    ensures |f.Block(s, b)| <= f.bs
  {
  }

  lemma LaterByte(bs: BlockSize, block: seq<byte>, buffer: seq<byte>)
    requires |block| <= bs < |buffer|
    ensures CopyInto(buffer, PadToBlock(bs, block))[bs] == buffer[bs]
  {
    CopiedByte(buffer, PadToBlock(bs, block), bs);
  }

  /** `size` bytes, all zero but the one at `k`. */
  function Marked(size: nat, k: nat): (r: seq<byte>)
    requires k < size
    ensures |r| == size && r[k] == 1 && forall i :: 0 <= i < size && i != k ==> r[i] == 0
  {
    Zeros(size)[k := 1]
  }

  /** A read that starts inside a block gets the first byte of the block first. */
  lemma WrongFirstByte(f: File, s: State, last: nat, tail: nat, b: nat, skip: nat, buffer: seq<byte>, content: seq<byte>)
    requires Ends(f, s, last, tail) && f.Logical(s, last + 1) == content && skip < f.bs && buffer != []
    requires BlockOffset(f.bs, b) + skip < |content|
    requires content[BlockOffset(f.bs, b)] != content[BlockOffset(f.bs, b) + skip]
    ensures !f.ReadsBack(s, last, BlockOffset(f.bs, b) + skip, buffer)
  {
    assert Filled(f, s, b, buffer)[0] == content[BlockOffset(f.bs, b)] by {
      f.PlainBlock(s, last, tail, b);
      FirstByte(f.bs, content, BlockOffset(f.bs, b), f.Block(s, b), buffer);
    }
    WrongByte(f, s, last, tail, b, skip, buffer, 0);
  }

  lemma UnalignedReadFails(c: Cipher, bs: BlockSize, last: nat, tail: nat, b: nat, skip: nat, len: nat)
    requires c.Sound() && tail <= bs && 0 < skip < bs && len > 0
    requires BlockOffset(bs, b) + skip < BlockOffset(bs, last) + tail
    ensures !AlwaysReadsBack(c, bs, last, tail, BlockOffset(bs, b) + skip, len)
  {
    var content := Marked(BlockOffset(bs, last) + tail, BlockOffset(bs, b) + skip);
    var f, s := EveryPlaintextIsStaged(c, bs, content, last, tail);
    WrongFirstByte(f, s, last, tail, b, skip, Zeros(len), content);
    WrongRun(f, s, last, tail, BlockOffset(bs, b) + skip, Zeros(len));
  }

  /** A read of more than one block leaves the rest of the buffer as it was. */
  lemma WrongLaterByte(f: File, s: State, last: nat, tail: nat, b: nat, buffer: seq<byte>, content: seq<byte>)
    requires Ends(f, s, last, tail) && f.Logical(s, last + 1) == content && |buffer| > f.bs
    requires BlockOffset(f.bs, b) + f.bs < |content| && buffer[f.bs] != content[BlockOffset(f.bs, b) + f.bs]
    ensures !f.ReadsBack(s, last, BlockOffset(f.bs, b), buffer)
  {
    BlockFits(f, s, b);
    LaterByte(f.bs, f.Block(s, b), buffer);
    WrongByte(f, s, last, tail, b, 0, buffer, f.bs);
  }

  lemma LongReadFails(c: Cipher, bs: BlockSize, last: nat, tail: nat, b: nat, len: nat)
    requires c.Sound() && tail <= bs && len > bs
    requires BlockOffset(bs, b) + bs < BlockOffset(bs, last) + tail
    ensures !AlwaysReadsBack(c, bs, last, tail, BlockOffset(bs, b), len)
  {
    var content := Marked(BlockOffset(bs, last) + tail, BlockOffset(bs, b) + bs);
    var f, s := EveryPlaintextIsStaged(c, bs, content, last, tail);
    WrongLaterByte(f, s, last, tail, b, Zeros(len), content);
    WrongRun(f, s, last, tail, BlockOffset(bs, b), Zeros(len));
  }

  /** A read within the file returns the plaintext, for every plaintext, if and only if it is empty
      or starts at a block boundary and stays within that block. */
  lemma ReadsBackExactlyWhen(c: Cipher, bs: BlockSize, last: nat, tail: nat, b: nat, skip: nat, len: nat)
    requires c.Sound() && tail <= bs && skip < bs && BlockOffset(bs, b) + skip <= BlockOffset(bs, last) + tail
    ensures var n := ReadLength(BlockOffset(bs, last) + tail, BlockOffset(bs, b) + skip, len);
            AlwaysReadsBack(c, bs, last, tail, BlockOffset(bs, b) + skip, len) <==> n == 0 || (skip == 0 && n <= bs)
  {
    var n := ReadLength(BlockOffset(bs, last) + tail, BlockOffset(bs, b) + skip, len);
    if n == 0 || (skip == 0 && n <= bs) {
      GoodReads(c, bs, last, tail, b, skip, len);
    } else if skip > 0 {
      UnalignedReadFails(c, bs, last, tail, b, skip, len);
    } else {
      LongReadFails(c, bs, last, tail, b, len);
    }
  }

  /** A read at `skip` bytes into block `b` of a file of `size` bytes is empty, or starts at the block and
      stays within it. */
  predicate InOneBlock(bs: BlockSize, size: nat, b: nat, skip: nat, len: nat) {
    && BlockOffset(bs, b) + skip <= size
    && var n := ReadLength(size, BlockOffset(bs, b) + skip, len);
       n == 0 || (skip == 0 && n <= bs)
  }

  lemma GoodReads(c: Cipher, bs: BlockSize, last: nat, tail: nat, b: nat, skip: nat, len: nat)
    requires InOneBlock(bs, BlockOffset(bs, last) + tail, b, skip, len)
    ensures AlwaysReadsBack(c, bs, last, tail, BlockOffset(bs, b) + skip, len)
  {
    var offset := BlockOffset(bs, b) + skip;
    forall f: File, s: State, buffer: seq<byte> | f.cipher == c && f.bs == bs && |buffer| == len
      ensures RunReadsBack(f, s, last, tail, offset, buffer)
    {
      GoodRun(f, s, last, tail, b, skip, buffer);
    }
  }

  lemma GoodRun(f: File, s: State, last: nat, tail: nat, b: nat, skip: nat, buffer: seq<byte>)
    requires InOneBlock(f.bs, BlockOffset(f.bs, last) + tail, b, skip, |buffer|)
    ensures RunReadsBack(f, s, last, tail, BlockOffset(f.bs, b) + skip, buffer)
  {
    if Ends(f, s, last, tail) { GoodRead(f, s, last, tail, b, skip, buffer); }
  }

  lemma GoodRead(f: File, s: State, last: nat, tail: nat, b: nat, skip: nat, buffer: seq<byte>)
    requires Ends(f, s, last, tail) && InOneBlock(f.bs, BlockOffset(f.bs, last) + tail, b, skip, |buffer|)
    ensures f.ReadsBack(s, last, BlockOffset(f.bs, b) + skip, buffer)
  {
    f.CommittedSize(s, last, tail);
    SafeRead(f, s, last, tail, b, skip, buffer);
  }

  lemma SafeRead(f: File, s: State, last: nat, tail: nat, b: nat, skip: nat, buffer: seq<byte>)
    requires Ends(f, s, last, tail) && InOneBlock(f.bs, |f.Logical(s, last + 1)|, b, skip, |buffer|)
    ensures f.ReadsBack(s, last, BlockOffset(f.bs, b) + skip, buffer)
  {
    if skip == 0 {
      f.ReadReturnsSlice(s, last, tail, b, buffer);
    } else {
      EmptyReadDelivers(f.cipher, f.bs, CommitBytes(f.bs, s.bytes, s.record), f.Logical(s, last + 1),
                        BlockOffset(f.bs, b) + skip, buffer);
    }
  }
}
