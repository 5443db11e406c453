/** From a local file through chunked encryption, storage and range reads to a local file. */
module RoundTrip {
  import opened Constants
  import opened Results
  import opened Multipart
  import opened Uploads

  // ----- Encryption of one chunk

  /** An authenticated cipher under one fixed key: `seal(iv, data)` and `open(iv, sealed)`. */
  datatype Cipher = Cipher(seal: (Bytes, Bytes) -> Bytes, open: (Bytes, Bytes) -> Option<Bytes>)

  ghost predicate SealOk(c: Cipher, iv: Bytes, data: Bytes) {
    |c.seal(iv, data)| == |data| + TAG_SIZE && c.open(iv, c.seal(iv, data)) == Some(data)
  }

  ghost predicate Lawful(c: Cipher) {
    forall iv, data {:trigger SealOk(c, iv, data)} :: |iv| == IV_SIZE ==> SealOk(c, iv, data)
  }

  datatype Error = InvalidChunkSize | CannotDecrypt | RangeNotSatisfiable

  function EncryptChunk(c: Cipher, iv: Bytes, data: Bytes): Bytes {
    iv + c.seal(iv, data)
  }

  function DecryptChunk(c: Cipher, chunk: Bytes): Result<Bytes, Error> {
    if |chunk| <= IV_SIZE then Err(InvalidChunkSize)
    else
      match c.open(chunk[..IV_SIZE], chunk[IV_SIZE..])
      case Some(data) => Ok(data)
      case None => Err(CannotDecrypt)
  }

  lemma DecryptUndoesEncrypt(c: Cipher, iv: Bytes, data: Bytes)
    requires Lawful(c) && |iv| == IV_SIZE
    ensures DecryptChunk(c, EncryptChunk(c, iv, data)) == Ok(data)
    ensures |EncryptChunk(c, iv, data)| == |data| + TOTAL_OVERHEAD
  {
    assert SealOk(c, iv, data);
    var chunk := EncryptChunk(c, iv, data);
    assert chunk[..IV_SIZE] == iv && chunk[IV_SIZE..] == c.seal(iv, data);
  }

  // ----- Splitting a file

  /** The exact ceiling of size / CHUNK_SIZE. */
  function GetNumChunks(size: nat): (n: nat)
    ensures n * CHUNK_SIZE >= size && (n >= 1 ==> (n - 1) * CHUNK_SIZE < size)
  {
    (size + CHUNK_SIZE - 1) / CHUNK_SIZE
  }

  /** Bounds of a chunk of the local file, numbered from 0. */
  function GetReadBounds(chunk: nat, size: nat): (int, int) {
    var start, end := CHUNK_SIZE * chunk, CHUNK_SIZE * (chunk + 1);
    (start, if end > size then size else end)
  }

  lemma BoundsInFile(chunk: nat, size: nat)
    requires chunk < GetNumChunks(size)
    ensures var (start, end) := GetReadBounds(chunk, size);
            && 0 <= start < end <= size
            && (chunk < GetNumChunks(size) - 1 ==> end == start + CHUNK_SIZE)
            && (chunk == GetNumChunks(size) - 1 ==> end == size)
  {
  }

  function FileChunk(file: Bytes, chunk: nat): (data: Bytes)
    requires chunk < GetNumChunks(|file|)
  {
    BoundsInFile(chunk, |file|);
    var (start, end) := GetReadBounds(chunk, |file|);
    file[start..end]
  }

  /** What prepareChunk sends for every chunk, with a fresh initialisation vector for each. */
  function EncryptedChunks(c: Cipher, ivs: seq<Bytes>, file: Bytes): seq<Bytes>
    requires |ivs| == GetNumChunks(|file|)
  {
    seq(|ivs|, k requires 0 <= k < |ivs| => EncryptChunk(c, ivs[k], FileChunk(file, k)))
  }

  ghost predicate FreshIvs(ivs: seq<Bytes>, file: Bytes) {
    |ivs| == GetNumChunks(|file|) && forall k :: 0 <= k < |ivs| ==> |ivs[k]| == IV_SIZE
  }

  // ----- Reading a chunk back from the stored obj

  /** First and last byte of a chunk numbered from 1, and whether this is the end of the file. */
  function GetReadBoundaries(chunk: int, length: int): (int, int, bool) {
    var start := (chunk - 1) * CHUNK_SIZE + TOTAL_OVERHEAD * (chunk - 1);
    var end := CHUNK_SIZE + TOTAL_OVERHEAD + start - 1;
    if end >= length - 1 then (start, length - 1, true) else (start, end, false)
  }

  /** A byte range request, section 14.1.2 of RFC 9110: both ends are included. */
  function PartialDownload(obj: Bytes, start: int, end: int): Result<Bytes, Error> {
    if 0 <= start <= end && start < |obj| then
      Ok(obj[start..if end < |obj| then end + 1 else |obj|])
    else Err(RangeNotSatisfiable)
  }

  /** DownloadFile on a file whose recorded length is that of the object. */
  function DownloadFile(obj: Bytes, chunk: int): (bool, Result<Bytes, Error>) {
    var (start, end, eof) := GetReadBoundaries(chunk, |obj|);
    (eof, PartialDownload(obj, start, end))
  }

  /** All chunks but the last have the full stored size, the last is not empty. */
  ghost predicate ChunkSized(parts: seq<Bytes>) {
    && |parts| >= 1
    && (forall k :: 0 <= k < |parts| - 1 ==> |parts[k]| == STORED_SIZE)
    && 0 < |parts[|parts| - 1]| <= STORED_SIZE
  }

  lemma {:induction false} PrefixLength(parts: seq<Bytes>)
    requires forall k :: 0 <= k < |parts| ==> |parts[k]| == STORED_SIZE
    ensures |Concat(parts)| == |parts| * STORED_SIZE
  {
    if parts == [] {
    } else {
      PrefixLength(parts[..|parts| - 1]);
    }
  }

  lemma {:induction false} PartAt(parts: seq<Bytes>, k: nat)
    requires ChunkSized(parts) && k < |parts|
    ensures |Concat(parts)| == (|parts| - 1) * STORED_SIZE + |parts[|parts| - 1]|
    ensures k * STORED_SIZE + |parts[k]| <= |Concat(parts)|
    ensures Concat(parts)[k * STORED_SIZE..k * STORED_SIZE + |parts[k]|] == parts[k]
  {
    var front := parts[..|parts| - 1];
    PrefixLength(front);
    if k == |parts| - 1 {
    } else {
      PartAt(front, k);
      assert front[k] == parts[k];
    }
  }

  /** The read boundaries of the chunks 1 to n partition the object: they start at 0, each range
      starts where the one before ended, the last ends with the object, and only that one is eof. */
  lemma BoundariesPartition(parts: seq<Bytes>, chunk: nat)
    requires ChunkSized(parts) && 1 <= chunk <= |parts|
    ensures var (start, end, eof) := GetReadBoundaries(chunk, |Concat(parts)|);
            && 0 <= start <= end < |Concat(parts)|
            && (chunk == 1 ==> start == 0)
            && (chunk < |parts| ==> GetReadBoundaries(chunk + 1, |Concat(parts)|).0 == end + 1)
            && (eof <==> chunk == |parts|)
            && (eof ==> end == |Concat(parts)| - 1)
  {
    PartAt(parts, chunk - 1);
  }

  /** Every range read returns exactly one stored chunk. */
  lemma ReadIsChunk(parts: seq<Bytes>, chunk: nat)
    requires ChunkSized(parts) && 1 <= chunk <= |parts|
    ensures DownloadFile(Concat(parts), chunk) == (chunk == |parts|, Ok(parts[chunk - 1]))
  {
    BoundariesPartition(parts, chunk);
    PartAt(parts, chunk - 1);
    ChunkBoundaries(parts, chunk);
    hide Concat, GetReadBoundaries, ChunkSized;
  }

  lemma ChunkBoundaries(parts: seq<Bytes>, chunk: nat)
    requires ChunkSized(parts) && 1 <= chunk <= |parts|
    ensures var (start, end, eof) := GetReadBoundaries(chunk, |Concat(parts)|);
            start == (chunk - 1) * STORED_SIZE && end + 1 == start + |parts[chunk - 1]|
  {
    PartAt(parts, chunk - 1);
  }

  lemma EncryptedAreStored(c: Cipher, ivs: seq<Bytes>, file: Bytes)
    requires Lawful(c) && file != [] && FreshIvs(ivs, file)
    ensures ChunkSized(EncryptedChunks(c, ivs, file))
  {
    forall k | 0 <= k < |ivs|
      ensures |EncryptedChunks(c, ivs, file)[k]| == |FileChunk(file, k)| + TOTAL_OVERHEAD
    {
      DecryptUndoesEncrypt(c, ivs[k], FileChunk(file, k));
    }
    BoundsInFile(|ivs| - 1, |file|);
  }

  // ----- Writing the file

  /** WriteAt: beyond the end the gap is filled with zeros. */
  function Written(content: Bytes, data: Bytes, offset: nat): (r: Bytes)
    ensures |r| == if data == [] || offset + |data| <= |content| then |content| else offset + |data|
    ensures forall p :: 0 <= p < |r| ==>
                          r[p] == if offset <= p < offset + |data| then data[p - offset]
                                  else if p < |content| then content[p] else 0
  {
    if data == [] then content
    else
      var padded := content + seq(if offset > |content| then offset - |content| else 0, _ => 0);
      padded[..offset] + data + if offset + |data| < |content| then content[offset + |data|..] else []
  }

  class LocalFile {
    var content: Bytes

    constructor ()
      ensures content == []
    {
      content := [];
    }

    method WriteAt(data: Bytes, offset: nat)
      modifies this
      ensures content == Written(old(content), data, offset)
    {
      content := Written(content, data, offset);
    }
  }

  /** The file after the chunks in `order`, numbered from 0, have been fetched and written. */
  function FileAfter(c: Cipher, obj: Bytes, order: seq<nat>): Result<Bytes, Error> {
    if order == [] then Ok([])
    else
      var k := order[|order| - 1];
      match FileAfter(c, obj, order[..|order| - 1])
      case Err(e) => Err(e)
      case Ok(content) =>
        match Fetch(c, obj, k)
        case Err(e) => Err(e)
        case Ok(data) => Ok(Written(content, data, CHUNK_SIZE * k))
  }

  /** fetchChunk for chunk k, numbered from 0. */
  function Fetch(c: Cipher, obj: Bytes, k: nat): Result<Bytes, Error> {
    match DownloadFile(obj, k + 1).1
    case Err(e) => Err(e)
    case Ok(body) => DecryptChunk(c, body)
  }

  method FetchAndWrite(c: Cipher, obj: Bytes, k: nat, file: LocalFile) returns (r: Result<(), Error>)
    modifies file
    ensures Fetch(c, obj, k).Ok? ==>
              r == Ok(()) && file.content == Written(old(file.content), Fetch(c, obj, k).value, CHUNK_SIZE * k)
    ensures Fetch(c, obj, k).Err? ==> r == Err(Fetch(c, obj, k).error) && file.content == old(file.content)
  {
    var data := Fetch(c, obj, k);
    match data {
      case Err(e) => r := Err(e);
      case Ok(plain) =>
        file.WriteAt(plain, CHUNK_SIZE * k);
        r := Ok(());
    }
  }

  /** The workers write all chunks but the final one in the order in which they happen to finish
      and the final chunk is written after them; the first error ends the download. */
  method DownloadData(c: Cipher, obj: Bytes, chunks: nat, finished: seq<nat>, file: LocalFile)
    returns (r: Result<(), Error>)
    requires chunks >= 1 && file.content == []
    modifies file
    ensures match FileAfter(c, obj, finished + [chunks - 1])
            case Ok(content) => r == Ok(()) && file.content == content
            case Err(e) => r == Err(e)
  {
    hide Fetch, Written;
    var order := finished + [chunks - 1];
    r := Ok(());
    for i := 0 to |order|
      invariant r == Ok(()) && FileAfter(c, obj, order[..i]) == Ok(file.content)
    {
      assert order[..i + 1][..i] == order[..i];
      r := FetchAndWrite(c, obj, order[i], file);
      if r.Err? {
        ErrorStays(c, obj, order, i + 1);
        return;
      }
    }
    assert order[..|order|] == order;
  }

  lemma {:induction false} ErrorStays(c: Cipher, obj: Bytes, order: seq<nat>, i: nat)
    requires i <= |order| && FileAfter(c, obj, order[..i]).Err?
    ensures FileAfter(c, obj, order) == FileAfter(c, obj, order[..i])
    decreases |order|
  {
    if i == |order| {
      assert order[..i] == order;
    } else {
      assert order[..|order| - 1][..i] == order[..i];
      ErrorStays(c, obj, order[..|order| - 1], i);
    }
  }

  // ----- The round trip

  lemma FetchIsChunk(c: Cipher, ivs: seq<Bytes>, file: Bytes, k: nat)
    requires Lawful(c) && file != [] && FreshIvs(ivs, file) && k < |ivs|
    ensures Fetch(c, Concat(EncryptedChunks(c, ivs, file)), k) == Ok(FileChunk(file, k))
  {
    EncryptedAreStored(c, ivs, file);
    ReadIsChunk(EncryptedChunks(c, ivs, file), k + 1);
    DecryptUndoesEncrypt(c, ivs[k], FileChunk(file, k));
  }

  /** The byte at p is right, because the chunk it lies in has been written. */
  ghost predicate RightAt(content: Bytes, file: Bytes, p: nat) {
    p < |content| && p < |file| && content[p] == file[p]
  }

  ghost predicate Holds(content: Bytes, file: Bytes, done: seq<nat>) {
    && |content| <= |file|
    && forall p: nat {:trigger RightAt(content, file, p)} :: p < |file| && p / CHUNK_SIZE in done ==> RightAt(content, file, p)
  }

  lemma WriteHolds(content: Bytes, file: Bytes, done: seq<nat>, k: nat)
    requires Holds(content, file, done) && k < GetNumChunks(|file|)
    ensures Holds(Written(content, FileChunk(file, k), CHUNK_SIZE * k), file, done + [k])
  {
    BoundsInFile(k, |file|);
    var after := Written(content, FileChunk(file, k), CHUNK_SIZE * k);
    forall p: nat | p < |file| && p / CHUNK_SIZE in done + [k]
      ensures RightAt(after, file, p)
    {
      if p / CHUNK_SIZE == k {
        assert CHUNK_SIZE * k <= p < CHUNK_SIZE * k + |FileChunk(file, k)|;
      } else {
        assert RightAt(content, file, p);
      }
    }
  }

  lemma {:induction false} WritesHold(c: Cipher, ivs: seq<Bytes>, file: Bytes, order: seq<nat>)
    requires Lawful(c) && file != [] && FreshIvs(ivs, file)
    requires forall i :: 0 <= i < |order| ==> order[i] < |ivs|
    ensures var r := FileAfter(c, Concat(EncryptedChunks(c, ivs, file)), order);
            r.Ok? && Holds(r.value, file, order)
  {
    if order == [] {
    } else {
      var front, k := order[..|order| - 1], order[|order| - 1];
      WritesHold(c, ivs, file, front);
      FetchIsChunk(c, ivs, file, k);
      WriteHolds(FileAfter(c, Concat(EncryptedChunks(c, ivs, file)), front).value, file, front, k);
      assert front + [k] == order;
    }
  }

  lemma AllHeldIsFile(content: Bytes, file: Bytes, done: seq<nat>)
    requires Holds(content, file, done) && file != []
    requires forall k :: 0 <= k < GetNumChunks(|file|) ==> k in done
    ensures content == file
  {
    forall p: nat | p < |file|
      ensures RightAt(content, file, p)
    {
      assert 0 <= p / CHUNK_SIZE < GetNumChunks(|file|);
    }
    assert RightAt(content, file, |file| - 1);
    forall p: nat | p < |file|
      ensures content[p] == file[p]
    {
      assert RightAt(content, file, p);
    }
  }

  /** Whatever the order in which the chunks are written, and even if some are written twice,
      the downloaded file is the original. */
  lemma DownloadedIsOriginal(c: Cipher, ivs: seq<Bytes>, file: Bytes, order: seq<nat>)
    requires Lawful(c) && file != [] && FreshIvs(ivs, file)
    requires forall i :: 0 <= i < |order| ==> order[i] < |ivs|
    requires forall k :: 0 <= k < |ivs| ==> k in order
    ensures FileAfter(c, Concat(EncryptedChunks(c, ivs, file)), order) == Ok(file)
  {
    hide Holds, Lawful;
    WritesHold(c, ivs, file, order);
    AllHeldIsFile(FileAfter(c, Concat(EncryptedChunks(c, ivs, file)), order).value, file, order);
  }

  /** What the storage holds after an upload: a single chunk is stored as it is, several chunks
      are what the one call of FinishLargeUpload put together. */
  ghost function StoredObject(cfg: Config, ordered: bool, moves: seq<nat>): Option<Bytes>
    requires |cfg.data| >= 1
  {
    if |cfg.data| == 1 then Some(cfg.data[0])
    else
      var finals := Run(cfg, ordered, moves).finals;
      if |finals| == 1 then Assemble(cfg, finals[0]) else None
  }

  /** The round trip: any file that is not empty, any interleaving of the upload requests that
      answers all of them, any order of the writes of the download. */
  lemma FileRoundTrip(c: Cipher, ivs: seq<Bytes>, file: Bytes, cfg: Config, ordered: bool, moves: seq<nat>, order: seq<nat>)
    requires Lawful(c) && file != [] && FreshIvs(ivs, file)
    requires cfg.data == EncryptedChunks(c, ivs, file)
    requires forall k :: 0 <= k < |cfg.data| ==> cfg.digest(cfg.data[k]) != PLACEHOLDER
    requires |ivs| >= 2 ==> (cfg.backend.S3? || ordered) && AllDone(Run(cfg, ordered, moves))
    requires forall i :: 0 <= i < |order| ==> order[i] < |ivs|
    requires forall k :: 0 <= k < |ivs| ==> k in order
    ensures var obj := StoredObject(cfg, ordered, moves);
            obj.Some? && FileAfter(c, obj.value, order) == Ok(file)
  {
    if |ivs| >= 2 {
      ObjectIsTheChunks(cfg, ordered, moves);
    } else {
      assert cfg.data[..0] == [] && Concat(cfg.data) == [] + cfg.data[0] == cfg.data[0];
    }
    DownloadedIsOriginal(c, ivs, file, order);
  }
}
