/** The encryptor component: its two maps, the mounted files, and the calls that update them. */
module Encryption {
  import opened Outcomes
  import opened ByteStore
  import opened Aead
  import opened ChunkedFile
  import opened FileSession

  class LastChunkMeta {
    var farthestBlockSeen: BlockIndex
    var paddingLength: int64

    constructor (farthest: BlockIndex, padding: int64)
      ensures Value() == ChunkMeta(farthest, padding)
    {
      farthestBlockSeen := farthest;
      paddingLength := padding;
    }

    /** The locked section of a stage call. */
    method Note(block: nat, padding: int64)
      modifies this
      ensures Value() == NoteBlock(old(Value()), block, padding)
    {
      if block > farthestBlockSeen {
        farthestBlockSeen := block;
        paddingLength := padding;
      }
    }

    method Clear()
      modifies this
      ensures Value() == NO_BLOCK
    {
      farthestBlockSeen := -1;
      paddingLength := 0;
    }

    function Value(): ChunkMeta
      reads this
    {
      ChunkMeta(farthestBlockSeen, paddingLength)
    }
  }

  /** The chunk address by multiplication, as the calls compute it. */
  function EncryptedChunkOffset(bs: BlockSize, block: nat): (r: nat)
    ensures r == ChunkOffset(bs, block)
  {
    SpanIsProduct(ChunkSize(bs), block);
    block * (bs + META_SIZE)
  }

  class Encryptor {
    const blockSize: BlockSize
    const cipher: Cipher
    /** The files below the cipher mount point. */
    var mount: map<string, seq<byte>>
    /** The names with a cached handle. */
    var handleMap: set<string>
    var lastChunkMetaMap: map<string, LastChunkMeta>

    /** Handles name mounted files, records belong to handles, and no two names share a record. */
    ghost predicate Valid()
      reads this
    {
      && handleMap <= mount.Keys
      && lastChunkMetaMap.Keys <= handleMap
      && forall a, b :: a in lastChunkMetaMap && b in lastChunkMetaMap && a != b ==>
           lastChunkMetaMap[a] != lastChunkMetaMap[b]
    }

    ghost function View(name: string): FileView
      reads this, lastChunkMetaMap.Values
    {
      FileView(
        if name in mount then Some(mount[name]) else None,
        name in handleMap,
        if name in lastChunkMetaMap then Some(lastChunkMetaMap[name].Value()) else None)
    }

    constructor (bs: BlockSize, c: Cipher)
      ensures Valid() && blockSize == bs && cipher == c
      ensures forall name :: View(name) == ABSENT
    {
      blockSize := bs;
      cipher := c;
      mount := map[];
      handleMap := {};
      lastChunkMetaMap := map[];
    }

    method CreateFile(name: string)
      requires Valid()
      modifies this
      ensures Valid()
      ensures View(name) == Created(old(View(name)))
      ensures forall other :: other != name ==> View(other) == old(View(other))
    {
      if name !in mount {
        mount := mount[name := []];
      }
      handleMap := handleMap + {name};
      var meta := new LastChunkMeta(-1, 0);
      lastChunkMetaMap := lastChunkMetaMap[name := meta];
    }

    method GetFileHandleAndLastChunkMeta(name: string) returns (r: Result<LastChunkMeta, FileError>)
      requires Valid()
      modifies this`handleMap, this`lastChunkMetaMap
      ensures Valid()
      ensures View(name) == Opened(blockSize, old(View(name))).1
      ensures match Opened(blockSize, old(View(name))).0
              case Err(e) => r == Err(e)
              case Ok(m) => r.Ok? && name in lastChunkMetaMap && r.value == lastChunkMetaMap[name] && r.value.Value() == m
      ensures forall other :: other != name ==> View(other) == old(View(other))
      ensures forall n :: n in lastChunkMetaMap ==>
                fresh(lastChunkMetaMap[n]) || (n in old(lastChunkMetaMap) && lastChunkMetaMap[n] == old(lastChunkMetaMap[n]))
    {
      if name in handleMap {
        if name in lastChunkMetaMap {
          return Ok(lastChunkMetaMap[name]);
        }
        return Err(MetaMissing);
      }
      if name !in mount {
        return Err(NoSuchFile);
      }
      handleMap := handleMap + {name};
      var fileSize := |mount[name]|;
      var totalBlocks := fileSize / (blockSize + META_SIZE);
      var paddingBlockSize := fileSize % (blockSize + META_SIZE);
      if paddingBlockSize != 0 && paddingBlockSize != PADDING_LENGTH_SIZE {
        return Err(UnexpectedPaddingBlock(paddingBlockSize));
      }
      var meta;
      if paddingBlockSize == 0 {
        meta := new LastChunkMeta(-1, 0);
      } else {
        meta := new LastChunkMeta(totalBlocks, ReadPaddingLength(mount[name]));
      }
      lastChunkMetaMap := lastChunkMetaMap[name := meta];
      return Ok(meta);
    }

    method StageData(name: string, offset: nat, data: seq<byte>, nonce: Option<Nonce>)
      returns (r: Result<(), FileError>)
      requires Valid()
      modifies this, lastChunkMetaMap.Values
      ensures Valid()
      ensures (r, View(name)) == Staged(cipher, blockSize, old(View(name)), offset, data, nonce)
      ensures forall other :: other != name ==> View(other) == old(View(other))
    {
      var got := GetFileHandleAndLastChunkMeta(name);
      if got.Err? {
        return Err(got.error);
      }
      var paddingLength: int64 := 0;
      var padded := data;
      if |data| < blockSize {
        paddingLength := blockSize - |data|;
        padded := data + Zeros(paddingLength);
      }
      if nonce.None? {
        return Err(EncryptFailed);
      }
      assert padded == PadToBlock(blockSize, data);
      var block := offset / blockSize;
      BlockAtIsQuotient(blockSize, offset);
      var chunk := nonce.value + cipher.seal(nonce.value, padded);
      mount := mount[name := WriteAt(mount[name], EncryptedChunkOffset(blockSize, block), chunk)];
      got.value.Note(block, paddingLength);
      r := Ok(());
    }

    method WriteTrailer(name: string, meta: LastChunkMeta)
      requires name in mount
      modifies this`mount
      ensures mount == old(mount)[name := WritePaddingLength(blockSize, old(mount[name]), meta.Value())]
    {
      var endOffset := EncryptedChunkOffset(blockSize, meta.farthestBlockSeen + 1);
      mount := mount[name := WriteAt(mount[name], endOffset, PutInt64(meta.paddingLength))];
    }

    method CommitData(name: string) returns (r: Result<(), FileError>)
      requires Valid()
      modifies this, lastChunkMetaMap.Values
      ensures Valid()
      ensures (r, View(name)) == Committed(blockSize, old(View(name)))
      ensures forall other :: other != name ==> View(other) == old(View(other))
    {
      var got := GetFileHandleAndLastChunkMeta(name);
      if got.Err? {
        return Err(got.error);
      }
      var meta := got.value;
      if meta.farthestBlockSeen != -1 {
        WriteTrailer(name, meta);
        meta.Clear();
      }
      DropCached(name);
      r := Ok(());
    }

    /** Forget the handle and the record of a file. */
    method DropCached(name: string)
      requires Valid()
      modifies this`handleMap, this`lastChunkMetaMap
      ensures Valid()
      ensures View(name) == FileView(old(View(name)).content, false, None)
      ensures forall other :: other != name ==> View(other) == old(View(other))
    {
      handleMap := handleMap - {name};
      lastChunkMetaMap := lastChunkMetaMap - {name};
    }

    /** The file branch: the size attribute. */
    method GetAttr(name: string) returns (r: Result<int, FileError>)
      requires Valid()
      ensures r == SizeOf(blockSize, View(name))
    {
      if name !in mount {
        return Err(NoSuchFile);
      }
      if name !in handleMap {
        var size := CheckForActualFileSize(mount[name]);
        return Ok(size);
      }
      if name !in lastChunkMetaMap {
        return Err(MetaMissing);
      }
      var meta := lastChunkMetaMap[name];
      if meta.farthestBlockSeen == -1 {
        return Ok(0);
      }
      SpanIsProduct(blockSize, meta.farthestBlockSeen + 1);
      return Ok((meta.farthestBlockSeen + 1) * blockSize - meta.paddingLength);
    }

    method CheckForActualFileSize(bytes: seq<byte>) returns (size: int)
      ensures size == SizeOnDisk(blockSize, bytes)
    {
      var totalBlocks := |bytes| / (blockSize + META_SIZE);
      DivMod(|bytes|, blockSize + META_SIZE);
      if |bytes| < totalBlocks * (blockSize + META_SIZE) + PADDING_LENGTH_SIZE {
        return 0;
      }
      return |bytes| - (ReadPaddingLength(bytes) + totalBlocks * META_SIZE + PADDING_LENGTH_SIZE);
    }

    /** Reads from `offset` into `data`; `size` is the size the caller's handle carries. */
    method ReadInBuffer(name: string, size: nat, offset: nat, data: array<byte>)
      returns (r: Result<nat, ReadError>)
      requires Valid()
      modifies data
      ensures match ReadInto(cipher, blockSize, View(name).content, size, offset, old(data[..]))
              case Err(e) => r == Err(e) && data[..] == old(data[..])
              case Ok((n, buffer)) => r == Ok(n) && data[..] == buffer
    {
      if offset > size {
        return Err(OutOfRange);
      }
      var dataLen := data.Length;
      if size < offset + dataLen {
        dataLen := size - offset;
      }
      if dataLen == 0 {
        return Ok(0);
      }
      if name !in mount {
        return Err(FileMissing);
      }
      var chunkIndex := offset / blockSize;
      BlockAtIsQuotient(blockSize, offset);
      var chunk := ReadAt(mount[name], EncryptedChunkOffset(blockSize, chunkIndex), blockSize + META_SIZE);
      if chunk.None? {
        return Err(ShortRead);
      }
      var plain := cipher.open(chunk.value[..NONCE_SIZE], chunk.value[NONCE_SIZE..]);
      if plain.None? {
        return Err(DecryptFailed);
      }
      var k := 0;
      while k < data.Length && k < |plain.value|
        invariant k <= data.Length && k <= |plain.value|
        invariant forall j :: 0 <= j < k ==> data[j] == plain.value[j]
        invariant forall j :: k <= j < data.Length ==> data[j] == old(data[j])
      {
        data[k] := plain.value[k];
        k := k + 1;
      }
      assert data[..] == CopyInto(old(data[..]), plain.value);
      return Ok(dataLen);
    }
  }
}
