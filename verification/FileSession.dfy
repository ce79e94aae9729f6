/** What each encryptor call does to one file: its stored bytes, whether a handle is cached, and the
    last-chunk record. The class in module Encryption is proved against these functions. */
module FileSession {
  import opened Outcomes
  import opened ByteStore
  import opened Aead
  import opened ChunkedFile

  datatype FileView = FileView(content: Option<seq<byte>>, cached: bool, record: Option<ChunkMeta>)

  const ABSENT := FileView(None, false, None)

  /** Creating never truncates: an existing file keeps its bytes. */
  function Created(v: FileView): FileView {
    FileView(Some(if v.content.Some? then v.content.value else []), true, Some(NO_BLOCK))
  }

  /** The record a call works on. A file without a cached handle is got and its record rebuilt;
      when that fails after the open, the handle stays cached without a record. */
  function Opened(bs: BlockSize, v: FileView): (Result<ChunkMeta, FileError>, FileView) {
    if v.cached then
      (if v.record.Some? then Ok(v.record.value) else Err(MetaMissing), v)
    else if v.content.None? then (Err(NoSuchFile), v)
    else
      match MetaFromDisk(bs, v.content.value)
      case Ok(m) => (Ok(m), v.(cached := true, record := Some(m)))
      case Err(e) => (Err(e), v.(cached := true))
  }

  /** Staging `data` at plaintext offset `offset`; no nonce means that encryption failed. */
  function Staged(c: Cipher, bs: BlockSize, v: FileView, offset: nat, data: seq<byte>, nonce: Option<Nonce>)
    : (Result<(), FileError>, FileView)
  {
    var (got, v') := Opened(bs, v);
    if got.Err? then (Err(got.error), v')
    else if nonce.None? then (Err(EncryptFailed), v')
    else if v'.content.None? then (Err(NoSuchFile), v')
    else
      var i := BlockAt(bs, offset);
      (Ok(()),
       v'.(content := Some(WriteChunk(c, bs, v'.content.value, i, nonce.value, data)),
           record := Some(NoteBlock(got.value, i, PaddingOf(bs, data)))))
  }

  function Committed(bs: BlockSize, v: FileView): (Result<(), FileError>, FileView) {
    var (got, v') := Opened(bs, v);
    if got.Err? then (Err(got.error), v')
    else if v'.content.None? then (Err(NoSuchFile), v')
    else (Ok(()), FileView(Some(CommitBytes(bs, v'.content.value, got.value)), false, None))
  }

  /** The size attribute: from the record while a handle is cached, from the stored bytes otherwise. */
  function SizeOf(bs: BlockSize, v: FileView): Result<int, FileError> {
    if v.content.None? then Err(NoSuchFile)
    else if !v.cached then Ok(SizeOnDisk(bs, v.content.value))
    else if v.record.None? then Err(MetaMissing)
    else Ok(SizeInMemory(bs, v.record.value))
  }
}
