/** The layout of an encrypted file and the per-file state the encryptor keeps for it, as
    functions: what each call does to the stored bytes and to the last-chunk record. */
module ChunkedFile {
  import opened Outcomes
  import opened ByteStore
  import opened Aead

  const META_SIZE: nat := NONCE_SIZE + AUTH_TAG_SIZE
  const PADDING_LENGTH_SIZE: nat := 8

  /** A block size of at least one byte whose chunk size is still an int64. */
  type BlockSize = b: int | 0 < b < TWO63 - META_SIZE witness 1

  type Nonce = n: seq<byte> | |n| == NONCE_SIZE witness Zeros(NONCE_SIZE)

  datatype ReadError = OutOfRange | FileMissing | ShortRead | DecryptFailed
  datatype FileError = NoSuchFile | MetaMissing | UnexpectedPaddingBlock(size: nat) | EncryptFailed

  /** -1 while no block has been seen. */
  type BlockIndex = k: int | -1 <= k

  /** The farthest block written so far and the padding of that block. */
  datatype ChunkMeta = ChunkMeta(farthestBlockSeen: BlockIndex, paddingLength: int64)

  const NO_BLOCK := ChunkMeta(-1, 0)

  // ----- chunks -----

  function ChunkSize(bs: BlockSize): nat { bs + META_SIZE }

  /** Where chunk `i` starts in the stored file: `i` chunks of `bs + META_SIZE` bytes come first. */
  function ChunkOffset(bs: BlockSize, i: nat): nat { Span(ChunkSize(bs), i) }

  /** Where block `i` starts in the plaintext. */
  function BlockOffset(bs: BlockSize, i: nat): nat { Span(bs, i) }

  /** The length of `n` pieces of `size` bytes. */
  function Span(size: nat, n: nat): nat {
    if n == 0 then 0 else Span(size, n - 1) + size
  }

  /** The block that plaintext offset `offset` lies in. */
  function BlockAt(bs: BlockSize, offset: nat): nat {
    if offset < bs then 0 else BlockAt(bs, offset - bs) + 1
  }

  /** Counting blocks is division. */
  lemma {:induction false} BlockAtIsQuotient(bs: BlockSize, offset: nat)
    ensures BlockAt(bs, offset) == offset / bs
  {
    if offset < bs {
      Quotient(offset, bs, 0, offset);
    } else {
      var rest := offset - bs;
      BlockAtIsQuotient(bs, rest);
      DivMod(rest, bs);
      Quotient(offset, bs, rest / bs + 1, rest % bs);
    }
  }

  lemma {:induction false} BlockAtSpan(bs: BlockSize, b: nat, skip: nat)
    requires skip < bs
    ensures BlockAt(bs, BlockOffset(bs, b) + skip) == b
  {
    if b > 0 { BlockAtSpan(bs, b - 1, skip); }
  }

  lemma {:induction false} SpanIsProduct(size: nat, n: nat)
    ensures Span(size, n) == n * size
  {
    if n > 0 { SpanIsProduct(size, n - 1); }
  }

  lemma {:induction false} SpanSplits(size: nat, n: nat, r: nat)
    requires r < size
    ensures (Span(size, n) + r) / size == n && (Span(size, n) + r) % size == r
  {
    SpanIsProduct(size, n);
    Quotient(n * size + r, size, n, r);
  }

  lemma DivMod(n: nat, d: nat)
    requires d > 0
    ensures n == n / d * d + n % d && n % d <= n
  {
  }

  lemma Quotient(n: nat, d: nat, q: nat, r: nat)
    requires n == q * d + r && r < d
    ensures n / d == q && n % d == r
  {
    var e := n / d - q;
    assert e * d == (n / d) * d - q * d;
    assert e * d == r - n % d;
    assert e > 0 ==> e * d >= d;
    assert e < 0 ==> e * d <= -(d as int);
  }

  lemma {:induction false} ChunksDisjoint(bs: BlockSize, i: nat, j: nat)
    requires i < j
    ensures ChunkOffset(bs, i) + ChunkSize(bs) == ChunkOffset(bs, i + 1) <= ChunkOffset(bs, j)
  {
    if i + 1 < j { ChunksDisjoint(bs, i, j - 1); }
  }

  function PaddingOf(bs: BlockSize, data: seq<byte>): (p: int64)
    ensures 0 <= p <= bs
  {
    if |data| < bs then bs - |data| else 0
  }

  function PadToBlock(bs: BlockSize, data: seq<byte>): (r: seq<byte>)
    ensures |data| <= bs ==> |r| == bs
  {
    data + Zeros(PaddingOf(bs, data))
  }

  function SealedChunk(c: Cipher, bs: BlockSize, nonce: Nonce, data: seq<byte>): seq<byte> {
    nonce + c.seal(nonce, PadToBlock(bs, data))
  }

  function WriteChunk(c: Cipher, bs: BlockSize, bytes: seq<byte>, i: nat, nonce: Nonce, data: seq<byte>)
    : seq<byte>
  {
    WriteAt(bytes, ChunkOffset(bs, i), SealedChunk(c, bs, nonce, data))
  }

  /** The locked update that follows a chunk write. */
  function NoteBlock(m: ChunkMeta, i: nat, padding: int64): ChunkMeta {
    if i > m.farthestBlockSeen then ChunkMeta(i, padding) else m
  }

  function ReadBlock(c: Cipher, bs: BlockSize, bytes: seq<byte>, i: nat): Result<seq<byte>, ReadError> {
    match ReadAt(bytes, ChunkOffset(bs, i), ChunkSize(bs))
    case None => Err(ShortRead)
    case Some(chunk) =>
      match c.open(chunk[..NONCE_SIZE], chunk[NONCE_SIZE..])
      case None => Err(DecryptFailed)
      case Some(plain) => Ok(plain)
  }

  /** Staging a block of at most `bs` bytes: that block then reads back as the padded data, every
      other block that could be read is unchanged, and the file grows to the end of the chunk. */
  lemma WriteChunkFraming(c: Cipher, bs: BlockSize, bytes: seq<byte>, i: nat, nonce: Nonce, data: seq<byte>)
    requires c.Sound() && |data| <= bs
    ensures var bytes' := WriteChunk(c, bs, bytes, i, nonce, data);
            var end := ChunkOffset(bs, i + 1);
            && ReadBlock(c, bs, bytes', i) == Ok(PadToBlock(bs, data))
            && |bytes'| == (if |bytes| < end then end else |bytes|)
            && forall j: nat :: j != i && ChunkOffset(bs, j + 1) <= |bytes| ==>
                 ReadBlock(c, bs, bytes', j) == ReadBlock(c, bs, bytes, j)
  {
    var chunk := SealedChunk(c, bs, nonce, data);
    var plain := PadToBlock(bs, data);
    assert |c.seal(nonce, plain)| == |plain| + AUTH_TAG_SIZE;
    assert chunk[..NONCE_SIZE] == nonce && chunk[NONCE_SIZE..] == c.seal(nonce, plain);
    ChunksDisjoint(bs, i, i + 1);
    ReadSame(bytes, ChunkOffset(bs, i), chunk);
    forall j: nat | j != i && ChunkOffset(bs, j + 1) <= |bytes|
      ensures ReadBlock(c, bs, WriteChunk(c, bs, bytes, i, nonce, data), j) == ReadBlock(c, bs, bytes, j)
    {
      ChunksDisjoint(bs, j, j + 1);
      if j < i { ChunksDisjoint(bs, j, i); } else { ChunksDisjoint(bs, i, j); }
      ReadDisjoint(bytes, ChunkOffset(bs, i), chunk, ChunkOffset(bs, j), ChunkSize(bs));
    }
  }

  // ----- the trailer and the two ways to compute a size -----

  function WritePaddingLength(bs: BlockSize, bytes: seq<byte>, m: ChunkMeta): seq<byte> {
    WriteAt(bytes, ChunkOffset(bs, m.farthestBlockSeen + 1), PutInt64(m.paddingLength))
  }

  function ReadPaddingLength(bytes: seq<byte>): int64
    requires |bytes| >= PADDING_LENGTH_SIZE
  {
    GetInt64(bytes[|bytes| - PADDING_LENGTH_SIZE..])
  }

  function CommitBytes(bs: BlockSize, bytes: seq<byte>, m: ChunkMeta): seq<byte> {
    if m.farthestBlockSeen != -1 then WritePaddingLength(bs, bytes, m) else bytes
  }

  function SizeInMemory(bs: BlockSize, m: ChunkMeta): int {
    if m.farthestBlockSeen == -1 then 0 else BlockOffset(bs, m.farthestBlockSeen + 1) - m.paddingLength
  }

  function SizeOnDisk(bs: BlockSize, bytes: seq<byte>): int {
    var totalBlocks := |bytes| / ChunkSize(bs);
    if |bytes| % ChunkSize(bs) < PADDING_LENGTH_SIZE then 0
    else
      DivMod(|bytes|, ChunkSize(bs));
      |bytes| - (ReadPaddingLength(bytes) + totalBlocks * META_SIZE + PADDING_LENGTH_SIZE)
  }

  /** The record rebuilt from the stored bytes when a file without a cached handle is used. */
  function MetaFromDisk(bs: BlockSize, bytes: seq<byte>): Result<ChunkMeta, FileError> {
    var totalBlocks := |bytes| / ChunkSize(bs);
    var paddingBlockSize := |bytes| % ChunkSize(bs);
    if paddingBlockSize == 0 then Ok(NO_BLOCK)
    else if paddingBlockSize != PADDING_LENGTH_SIZE then Err(UnexpectedPaddingBlock(paddingBlockSize))
    else
      DivMod(|bytes|, ChunkSize(bs));
      Ok(ChunkMeta(totalBlocks, ReadPaddingLength(bytes)))
  }

  lemma {:induction false} ChunkOverhead(bs: BlockSize, n: nat)
    ensures ChunkOffset(bs, n) == BlockOffset(bs, n) + n * META_SIZE
  {
    if n > 0 { ChunkOverhead(bs, n - 1); }
  }

  lemma TrailerWritten(bs: BlockSize, bytes: seq<byte>, m: ChunkMeta)
    requires m.farthestBlockSeen >= 0 && |bytes| <= ChunkOffset(bs, m.farthestBlockSeen + 1)
    ensures var committed := CommitBytes(bs, bytes, m);
            && |committed| == ChunkOffset(bs, m.farthestBlockSeen + 1) + PADDING_LENGTH_SIZE
            && ReadPaddingLength(committed) == m.paddingLength
  {
    var committed := CommitBytes(bs, bytes, m);
    Writes(bytes, ChunkOffset(bs, m.farthestBlockSeen + 1), PutInt64(m.paddingLength));
    assert committed[|committed| - 8..] == PutInt64(m.paddingLength);
    Int64RoundTrip(m.paddingLength);
  }

  /** Committing a file that does not reach past its farthest chunk: the length is one trailer past
      a whole number of chunks, the trailer holds the padding, the size recomputed from the stored
      bytes is the size that was reported from memory. */
  lemma CommitFraming(bs: BlockSize, bytes: seq<byte>, m: ChunkMeta)
    requires m.farthestBlockSeen >= 0 && |bytes| <= ChunkOffset(bs, m.farthestBlockSeen + 1)
    ensures var committed := CommitBytes(bs, bytes, m);
            && |committed| / ChunkSize(bs) == m.farthestBlockSeen + 1
            && |committed| % ChunkSize(bs) == PADDING_LENGTH_SIZE
            && ReadPaddingLength(committed) == m.paddingLength
            && SizeOnDisk(bs, committed) == SizeInMemory(bs, m)
  {
    TrailerWritten(bs, bytes, m);
    SpanSplits(ChunkSize(bs), m.farthestBlockSeen + 1, PADDING_LENGTH_SIZE);
    ChunkOverhead(bs, m.farthestBlockSeen + 1);
  }

  /** The trailer overlaps no chunk up to the farthest: each still decrypts as before. */
  lemma CommitKeepsBlocks(c: Cipher, bs: BlockSize, bytes: seq<byte>, m: ChunkMeta, i: nat)
    requires i <= m.farthestBlockSeen && |bytes| >= ChunkOffset(bs, i + 1)
    ensures ReadBlock(c, bs, CommitBytes(bs, bytes, m), i) == ReadBlock(c, bs, bytes, i)
  {
    ChunksDisjoint(bs, i, m.farthestBlockSeen + 1);
    ReadDisjoint(bytes, ChunkOffset(bs, m.farthestBlockSeen + 1), PutInt64(m.paddingLength),
                 ChunkOffset(bs, i), ChunkSize(bs));
  }

  // ----- reading into a caller's buffer -----

  /** How much of a buffer of `len` bytes lies before the end of the file. */
  function ReadLength(size: nat, offset: nat, len: nat): (n: nat)
    requires offset <= size
    ensures n <= len && offset + n <= size && (n == len || offset + n == size)
  {
    if size < offset + len then size - offset else len
  }

  /** The number of bytes a read reports and the buffer it leaves behind. The plaintext of the
      chunk is copied from its first byte, whatever the offset within the chunk. */
  function ReadInto(c: Cipher, bs: BlockSize, content: Option<seq<byte>>, size: nat, offset: nat, buffer: seq<byte>)
    : Result<(nat, seq<byte>), ReadError>
  {
    if offset > size then Err(OutOfRange)
    else
      var n := ReadLength(size, offset, |buffer|);
      if n == 0 then Ok((0, buffer))
      else if content.None? then Err(FileMissing)
      else match ReadBlock(c, bs, content.value, BlockAt(bs, offset))
        case Err(e) => Err(e)
        case Ok(plain) => Ok((n, CopyInto(buffer, plain)))
  }

  /** copy(dst, src): as many bytes as both have. */
  function CopyInto(dst: seq<byte>, src: seq<byte>): (r: seq<byte>)
    ensures |r| == |dst|
  {
    if |src| <= |dst| then src + dst[|src|..] else src[..|dst|]
  }

  lemma CopiedByte(dst: seq<byte>, src: seq<byte>, k: nat)
    requires k < |dst|
    ensures CopyInto(dst, src)[k] == if k < |src| then src[k] else dst[k]
  {
  }
}
