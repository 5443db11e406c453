/** The storage meter of a user over uploads and deletions of files in the user's own folders. */
module StorageMeter {
  import opened Constants
  import opened Multipart
  import Uploads
  import RoundTrip

  /** A file: the encrypted length of each chunk charged so far, and the recorded length, which
      is the encrypted length of the object once the upload is complete. */
  datatype VaultFile = VaultFile(chunks: nat, posted: map<nat, int>, length: int)

  /** The user's row, the configured default storage, and the files of the user. */
  datatype State = State(used: int, available: int, defaultStorage: int, files: Files)

  function Metered(used: int, available: int, amount: int): int {
    if available <= 0 then used else if used + amount < 0 then 0 else used + amount
  }

  /** The test on the updated meter. */
  predicate Exceeds(used: int, available: int, amount: int, defaultStorage: int) {
    available > 0 && used > available && amount > 0 && defaultStorage > 0
  }

  // ----- Sizes of files

  /** The encrypted length of the first n chunks as far as they have been charged. */
  function StoredUpTo(posted: map<nat, int>, n: nat): int {
    if n == 0 then 0 else StoredUpTo(posted, n - 1) + if n in posted then posted[n] else 0
  }

  /** The plaintext size of the first n chunks as far as they have been charged. */
  function PlainUpTo(posted: map<nat, int>, n: nat): int {
    if n == 0 then 0 else PlainUpTo(posted, n - 1) + if n in posted then posted[n] - TOTAL_OVERHEAD else 0
  }

  function Stored(f: VaultFile): int {
    StoredUpTo(f.posted, f.chunks)
  }

  function Plain(f: VaultFile): int {
    PlainUpTo(f.posted, f.chunks)
  }

  predicate IsComplete(f: VaultFile) {
    f.posted.Keys == UpTo(f.chunks)
  }

  /** The charges of the single chunks add up to what a deletion takes off. */
  lemma {:induction false} ChargesAddUp(posted: map<nat, int>, n: nat)
    requires UpTo(n) <= posted.Keys
    ensures PlainUpTo(posted, n) == StoredUpTo(posted, n) - TOTAL_OVERHEAD * n
  {
    if n == 0 {
    } else {
      ChargesAddUp(posted, n - 1);
      assert n in UpTo(n);
    }
  }

  lemma {:induction false} PlainGrows(posted: map<nat, int>, n: nat, k: nat, size: int)
    requires k !in posted && k >= 1
    ensures PlainUpTo(posted[k := size], n) == PlainUpTo(posted, n) + if k <= n then size - TOTAL_OVERHEAD else 0
  {
    if n == 0 {
    } else {
      PlainGrows(posted, n - 1, k, size);
    }
  }

  lemma {:induction false} PlainNotNegative(posted: map<nat, int>, n: nat)
    requires forall k :: k in posted ==> posted[k] >= TOTAL_OVERHEAD
    ensures PlainUpTo(posted, n) >= 0
  {
    if n == 0 {
    } else {
      PlainNotNegative(posted, n - 1);
    }
  }

  lemma {:induction false} PlainOfNothing(n: nat)
    ensures PlainUpTo(map[], n) == 0
  {
    if n == 0 {
    } else {
      PlainOfNothing(n - 1);
    }
  }

  // ----- Sums over files

  type Files = map<string, VaultFile>

  ghost function PlainSum(files: Files, s: set<string>): int
    requires s <= files.Keys
  {
    if s == {} then 0
    else
      var id :| id in s;
      Plain(files[id]) + PlainSum(files, s - {id})
  }

  lemma {:induction false} PlainSumRemove(files: Files, s: set<string>, y: string)
    requires s <= files.Keys && y in s
    ensures PlainSum(files, s) == Plain(files[y]) + PlainSum(files, s - {y})
  {
    var x :| x in s && PlainSum(files, s) == Plain(files[x]) + PlainSum(files, s - {x});
    if x == y {
    } else {
      PlainSumRemove(files, s - {x}, y);
      PlainSumRemove(files, s - {y}, x);
      assert s - {x} - {y} == s - {y} - {x};
    }
  }

  lemma {:induction false} PlainSumSame(files: Files, files': Files, s: set<string>)
    requires s <= files.Keys && s <= files'.Keys && forall id :: id in s ==> files[id] == files'[id]
    ensures PlainSum(files, s) == PlainSum(files', s)
  {
    if s == {} {
    } else {
      var id :| id in s;
      PlainSumRemove(files, s, id);
      PlainSumRemove(files', s, id);
      PlainSumSame(files, files', s - {id});
    }
  }

  /** The plaintext size of the chunks charged for all files. */
  ghost function Total(files: Files): int {
    PlainSum(files, files.Keys)
  }

  // ----- The operations

  datatype Op = Init(id: string, chunks: nat, stated: int) | Post(id: string, chunk: nat, size: int) | Delete(id: string)

  function AfterInit(s: State, id: string, chunks: nat, stated: int): State {
    s.(files := s.files[id := VaultFile(chunks, map[], stated)])
  }

  /** The chunk has been charged and stored; the last one records the length of the object. */
  function WithChunk(f: VaultFile, chunk: nat, size: int): VaultFile {
    var g := f.(posted := f.posted[chunk := size]);
    if IsComplete(g) then g.(length := Stored(g)) else g
  }

  predicate IsRefused(s: State, size: int) {
    var amount := size - TOTAL_OVERHEAD;
    Exceeds(Metered(s.used, s.available, amount), s.available, amount, s.defaultStorage)
  }

  /** The answer to a chunk; for NoReply the loop of abortUpload, which never changes its number,
      keeps the request from ending. */
  datatype Reply = Accepted | Refused | NoReply

  /** UploadDataHandler for any chunk number from 1. A chunk beyond the stated number is not charged, but
      aborts the upload. */
  function AfterUpload(s: State, id: string, chunk: nat, size: int): (State, Reply)
    requires id in s.files
  {
    if chunk > s.files[id].chunks then
      (AfterAbort(s, id, 0, chunk), if chunk <= 1 then Refused else NoReply)
    else if IsRefused(s, size) then
      var amount := size - TOTAL_OVERHEAD;
      var charged := s.(used := Metered(s.used, s.available, amount));
      (AfterAbort(charged, id, amount, chunk), if chunk <= 1 then Refused else NoReply)
    else
      (AfterPost(s, id, chunk, size), Accepted)
  }

  /** The file goes first; the refund comes after the loop, so only for the first chunk. */
  function AfterAbort(s: State, id: string, amount: int, chunk: nat): State {
    s.(files := s.files - {id}, used := if chunk <= 1 then Metered(s.used, s.available, -amount) else s.used)
  }

  /** The post of a chunk: charge, then store, or, beyond the limit, abort the upload at its first
      chunk. */
  function AfterPost(s: State, id: string, chunk: nat, size: int): State
    requires id in s.files
  {
    var amount := size - TOTAL_OVERHEAD;
    var used := Metered(s.used, s.available, amount);
    if IsRefused(s, size) then s.(used := Metered(used, s.available, -amount), files := s.files - {id})
    else s.(used := used, files := s.files[id := WithChunk(s.files[id], chunk, size)])
  }

  function Freed(f: VaultFile): int {
    f.length - TOTAL_OVERHEAD * f.chunks
  }

  function AfterDelete(s: State, id: string): State
    requires id in s.files
  {
    s.(used := Metered(s.used, s.available, -Freed(s.files[id])), files := s.files - {id})
  }

  /** Uploads under fresh identifiers, each chunk once and at least the overhead long, deletions
      of complete files. A chunk beyond the limit belongs to a file with no other chunk charged,
      and is its first: otherwise abortUpload loses charges or does not end. */
  predicate Enabled(s: State, op: Op) {
    match op
    case Init(id, chunks, stated) => id !in s.files && chunks >= 1
    case Post(id, chunk, size) =>
      && id in s.files && chunk in UpTo(s.files[id].chunks) && chunk !in s.files[id].posted && size >= TOTAL_OVERHEAD
      && (IsRefused(s, size) ==> chunk == 1 && s.files[id].posted == map[])
    case Delete(id) => id in s.files && IsComplete(s.files[id])
  }

  class Vault {
    var used: int
    var available: int
    const defaultStorage: int
    var files: Files

    function S(): State
      reads this
    {
      State(used, available, defaultStorage, files)
    }

    constructor (available: int, defaultStorage: int)
      ensures S() == State(0, available, defaultStorage, map[])
    {
      this.used, this.available, this.defaultStorage, this.files := 0, available, defaultStorage, map[];
    }

    /** Only rows with a limit are updated, and the update stays in place even if it is then
        reported as exceeding the limit. */
    method UpdateStorageUsed(amount: int) returns (exceeded: bool)
      modifies this`used
      ensures used == Metered(old(used), available, amount)
      ensures exceeded == Exceeds(used, available, amount, defaultStorage)
      ensures available > 0 ==> used == if old(used) + amount >= 0 then old(used) + amount else 0
      ensures available > 0 && defaultStorage > 0 && amount > 0 ==> (exceeded <==> used > available)
      ensures available <= 0 || defaultStorage <= 0 || amount <= 0 ==> !exceeded
      ensures available <= 0 ==> used == old(used)
    {
      var storageUsed, storageAvailable := 0, 0;
      if available > 0 {
        used := if used + amount < 0 then 0 else used + amount;
        storageUsed, storageAvailable := used, available;
      }
      exceeded := storageUsed > storageAvailable && amount > 0 && defaultStorage > 0;
    }

    /** UploadDataHandler for one chunk of the given encrypted size. */
    method UploadData(id: string, chunk: nat, size: int) returns (reply: Reply)
      requires id in files && chunk >= 1
      modifies this
      ensures (S(), reply) == AfterUpload(old(S()), id, chunk, size)
      ensures available > 0 && defaultStorage > 0 && old(used) >= 0 && size > TOTAL_OVERHEAD && chunk <= old(files)[id].chunks ==>
                (reply == Accepted <==> old(used) + size - TOTAL_OVERHEAD <= available)
    {
      if chunk > files[id].chunks {
        reply := AbortUpload(id, 0, chunk);
        return;
      }
      var exceeded := UpdateStorageUsed(size - TOTAL_OVERHEAD);
      if exceeded {
        reply := AbortUpload(id, size - TOTAL_OVERHEAD, chunk);
        return;
      }
      files := files[id := WithChunk(files[id], chunk, size)];
      reply := Accepted;
    }

    /** abortUpload. Its loop `for chunkNum > 1` does not change chunkNum: where it is entered, it does not
        end, and what comes after it is not reached. */
    method AbortUpload(id: string, chunkLength: int, chunk: nat) returns (reply: Reply)
      modifies this
      ensures S() == AfterAbort(old(S()), id, chunkLength, chunk)
      ensures reply == if chunk <= 1 then Refused else NoReply
    {
      files := files - {id};
      if chunk > 1 {
        return NoReply;
      }
      var _ := UpdateStorageUsed(-chunkLength);
      reply := Refused;
    }

    /** deleteVaultFile for the owner of a file, complete or not. */
    method DeleteFile(id: string) returns (freed: int)
      requires id in files
      modifies this
      ensures S() == AfterDelete(old(S()), id) && freed == Freed(old(files)[id])
    {
      freed := files[id].length - TOTAL_OVERHEAD * files[id].chunks;
      files := files - {id};
      var _ := UpdateStorageUsed(-freed);
    }
  }

  function Step(s: State, op: Op): State {
    if !Enabled(s, op) then s
    else
      match op
      case Init(id, chunks, stated) => AfterInit(s, id, chunks, stated)
      case Post(id, chunk, size) => AfterPost(s, id, chunk, size)
      case Delete(id) => AfterDelete(s, id)
  }

  function Run(s: State, ops: seq<Op>): State {
    if ops == [] then s else Step(Run(s, ops[..|ops| - 1]), ops[|ops| - 1])
  }

  // ----- Conservation

  predicate FileOk(f: VaultFile) {
    && f.chunks >= 1 && f.posted.Keys <= UpTo(f.chunks)
    && forall k :: k in f.posted ==> f.posted[k] >= TOTAL_OVERHEAD
  }

  predicate LengthOk(f: VaultFile) {
    FileOk(f) && (IsComplete(f) ==> f.length == Stored(f))
  }

  ghost predicate AllOk(files: Files) {
    forall id {:trigger LengthOk(files[id])} :: id in files ==> LengthOk(files[id])
  }

  /** The meter shows the plaintext size of all chunks charged for the live files. */
  ghost predicate Conserved(s: State) {
    s.available > 0 && s.used == Total(s.files) && AllOk(s.files)
  }

  lemma {:induction false} SumNotNegative(files: Files, s: set<string>)
    requires AllOk(files) && s <= files.Keys
    ensures PlainSum(files, s) >= 0
  {
    if s == {} {
    } else {
      var id :| id in s;
      PlainSumRemove(files, s, id);
      assert LengthOk(files[id]);
      PlainNotNegative(files[id].posted, files[id].chunks);
      SumNotNegative(files, s - {id});
    }
  }

  lemma FilesRemove(files: Files, id: string)
    requires AllOk(files) && id in files
    ensures AllOk(files - {id}) && Total(files - {id}) == Total(files) - Plain(files[id])
  {
    assert (files - {id}).Keys == files.Keys - {id};
    PlainSumRemove(files, files.Keys, id);
    PlainSumSame(files, files - {id}, files.Keys - {id});
  }

  lemma FilesUpdate(files: Files, id: string, f: VaultFile)
    ensures AllOk(files) && LengthOk(f) ==> AllOk(files[id := f])
    ensures Total(files[id := f]) == Total(files) - (if id in files then Plain(files[id]) else 0) + Plain(f)
  {
    hide Plain, LengthOk;
    var after := files[id := f];
    assert after.Keys - {id} == files.Keys - {id};
    PlainSumRemove(after, after.Keys, id);
    PlainSumSame(files, after, files.Keys - {id});
    if id in files {
      PlainSumRemove(files, files.Keys, id);
    } else {
      assert files.Keys - {id} == files.Keys;
    }
  }

  /** A complete file frees exactly its plaintext size. */
  lemma FreedIsPlain(f: VaultFile)
    requires LengthOk(f) && IsComplete(f)
    ensures Freed(f) == Plain(f)
  {
    ChargesAddUp(f.posted, f.chunks);
  }

  lemma WithChunkPlain(f: VaultFile, chunk: nat, size: int)
    requires LengthOk(f) && chunk in UpTo(f.chunks) && chunk !in f.posted && size >= TOTAL_OVERHEAD
    ensures LengthOk(WithChunk(f, chunk, size))
    ensures Plain(WithChunk(f, chunk, size)) == Plain(f) + size - TOTAL_OVERHEAD
  {
    PlainGrows(f.posted, f.chunks, chunk, size);
  }

  lemma InitKeeps(s: State, id: string, chunks: nat, stated: int)
    requires Conserved(s) && id !in s.files && chunks >= 1
    ensures Conserved(AfterInit(s, id, chunks, stated))
    ensures var t := AfterInit(s, id, chunks, stated);
            t.files == s.files[id := VaultFile(chunks, map[], stated)] && t.used == s.used && t.available == s.available
  {
    var f := VaultFile(chunks, map[], stated);
    PlainOfNothing(chunks);
    assert 1 in UpTo(chunks);
    FilesUpdate(s.files, id, f);
  }

  lemma PostKeeps(s: State, id: string, chunk: nat, size: int)
    requires Conserved(s) && Enabled(s, Post(id, chunk, size))
    ensures Conserved(AfterPost(s, id, chunk, size))
  {
    var f := s.files[id];
    assert LengthOk(f);
    SumNotNegative(s.files, s.files.Keys);
    if IsRefused(s, size) {
      FilesRemove(s.files, id);
      PlainOfNothing(f.chunks);
    } else {
      WithChunkPlain(f, chunk, size);
      FilesUpdate(s.files, id, WithChunk(f, chunk, size));
    }
  }

  /** The clamp at zero never fires. */
  lemma DeleteKeeps(s: State, id: string)
    requires Conserved(s) && id in s.files && IsComplete(s.files[id])
    ensures s.used - Freed(s.files[id]) >= 0
    ensures AfterDelete(s, id).used == s.used - Plain(s.files[id])
    ensures Conserved(AfterDelete(s, id))
  {
    assert LengthOk(s.files[id]);
    FreedIsPlain(s.files[id]);
    FilesRemove(s.files, id);
    SumNotNegative(s.files - {id}, (s.files - {id}).Keys);
  }

  lemma {:induction false} RunConserves(s: State, ops: seq<Op>)
    requires Conserved(s)
    ensures Conserved(Run(s, ops))
  {
    if ops == [] {
    } else {
      var before, op := Run(s, ops[..|ops| - 1]), ops[|ops| - 1];
      RunConserves(s, ops[..|ops| - 1]);
      if Enabled(before, op) {
        match op {
          case Init(id, chunks, stated) => InitKeeps(before, id, chunks, stated);
          case Post(id, chunk, size) => PostKeeps(before, id, chunk, size);
          case Delete(id) => DeleteKeeps(before, id);
        }
      }
    }
  }

  /** Over any run of uploads and deletions the meter of a limited user shows the plaintext sizes
      of the live files, and what each complete file would free is exactly its share. */
  lemma StorageIsConserved(available: int, defaultStorage: int, ops: seq<Op>)
    requires available > 0
    ensures var s := Run(State(0, available, defaultStorage, map[]), ops);
            && s.used == Total(s.files)
            && forall id :: id in s.files && IsComplete(s.files[id]) ==> Freed(s.files[id]) == Plain(s.files[id])
  {
    RunConserves(State(0, available, defaultStorage, map[]), ops);
    var s := Run(State(0, available, defaultStorage, map[]), ops);
    forall id | id in s.files && IsComplete(s.files[id])
      ensures Freed(s.files[id]) == Plain(s.files[id])
    {
      assert LengthOk(s.files[id]);
      FreedIsPlain(s.files[id]);
    }
  }

  // ----- The limit

  /** A chunk is accepted exactly if it has a stated number and, for a limited user, leaves the meter
      within the limit; nothing is refused if there is no default storage or if the chunk is empty. */
  lemma AcceptedIff(s: State, id: string, chunk: nat, size: int)
    requires id in s.files && chunk >= 1 && s.used >= 0
    ensures AfterUpload(s, id, chunk, size).1 == Accepted <==>
              && chunk <= s.files[id].chunks
              && (s.available <= 0 || s.defaultStorage <= 0 || size <= TOTAL_OVERHEAD
                  || s.used + size - TOTAL_OVERHEAD <= s.available)
  {
  }

  /** The meter of a limited user stays within the limit, accepted or not, if and only if the chunk is
      not one after the first that is refused because of the limit: its charge is not taken back. */
  lemma LimitIsKeptIff(s: State, id: string, chunk: nat, size: int)
    requires id in s.files && chunk >= 1 && 0 <= s.used <= s.available && s.available > 0 && s.defaultStorage > 0
    requires size >= TOTAL_OVERHEAD
    ensures AfterUpload(s, id, chunk, size).0.used <= s.available
            <==> !(1 < chunk <= s.files[id].chunks && s.used + size - TOTAL_OVERHEAD > s.available)
  {
  }

  lemma {:induction false} RunStaysWithin(s: State, ops: seq<Op>)
    requires Conserved(s) && s.used <= s.available && s.defaultStorage > 0
    ensures var now := Run(s, ops);
            now.available == s.available && now.defaultStorage == s.defaultStorage && 0 <= now.used <= now.available
  {
    if ops == [] {
      SumNotNegative(s.files, s.files.Keys);
    } else {
      var front, op := ops[..|ops| - 1], ops[|ops| - 1];
      RunStaysWithin(s, front);
      RunConserves(s, front);
      var before := Run(s, front);
      if op.Delete? && Enabled(before, op) {
        DeleteKeeps(before, op.id);
        assert LengthOk(before.files[op.id]);
        PlainNotNegative(before.files[op.id].posted, before.files[op.id].chunks);
      }
    }
  }

  /** Over any run of uploads and deletions the meter never passes the limit. */
  lemma NeverBeyondLimit(available: int, defaultStorage: int, ops: seq<Op>)
    requires available > 0 && defaultStorage > 0
    ensures 0 <= Run(State(0, available, defaultStorage, map[]), ops).used <= available
  {
    RunStaysWithin(State(0, available, defaultStorage, map[]), ops);
  }

  /** What is charged for the file when its upload has been aborted: the refused chunk itself is
      refunded at the first chunk only. */
  function StillCharged(s: State, id: string, chunk: nat, size: int): int
    requires id in s.files
  {
    Plain(s.files[id]) + if chunk <= 1 || chunk > s.files[id].chunks then 0 else size - TOTAL_OVERHEAD
  }

  /** An upload that is aborted, because of the limit or of a chunk beyond the stated number, keeps the
      meter right exactly if nothing else has been charged for the file. */
  lemma AbortKeepsIff(s: State, id: string, chunk: nat, size: int)
    requires Conserved(s) && id in s.files && chunk >= 1 && size >= TOTAL_OVERHEAD
    requires AfterUpload(s, id, chunk, size).1 != Accepted
    ensures Conserved(AfterUpload(s, id, chunk, size).0) <==> StillCharged(s, id, chunk, size) == 0
  {
    SumNotNegative(s.files, s.files.Keys);
    FilesRemove(s.files, id);
  }

  /** The steps of a run are those of the handler. */
  lemma PostIsUpload(s: State, id: string, chunk: nat, size: int)
    requires Enabled(s, Post(id, chunk, size))
    ensures AfterUpload(s, id, chunk, size).0 == AfterPost(s, id, chunk, size)
    ensures AfterUpload(s, id, chunk, size).1 == if IsRefused(s, size) then Refused else Accepted
  {
  }

  // ----- The charges of a real file

  /** The chunks charged for a file are its encrypted chunks. */
  ghost predicate Holds(f: VaultFile, parts: seq<Bytes>) {
    && f.chunks == |parts| && IsComplete(f)
    && forall k :: 1 <= k <= |parts| ==> k in f.posted && f.posted[k] == |parts[k - 1]|
  }

  lemma {:induction false} StoredIsConcat(posted: map<nat, int>, parts: seq<Bytes>)
    requires forall k :: 1 <= k <= |parts| ==> k in posted && posted[k] == |parts[k - 1]|
    ensures StoredUpTo(posted, |parts|) == |Uploads.Concat(parts)|
  {
    if parts == [] {
    } else {
      StoredIsConcat(posted, parts[..|parts| - 1]);
    }
  }

  lemma SizeOfEncrypted(c: RoundTrip.Cipher, ivs: seq<Bytes>, file: Bytes)
    requires RoundTrip.Lawful(c) && file != [] && RoundTrip.FreshIvs(ivs, file)
    ensures |Uploads.Concat(RoundTrip.EncryptedChunks(c, ivs, file))| == |file| + TOTAL_OVERHEAD * |ivs|
  {
    hide RoundTrip.Lawful;
    var n := |ivs|;
    RoundTrip.EncryptedAreStored(c, ivs, file);
    RoundTrip.PartAt(RoundTrip.EncryptedChunks(c, ivs, file), n - 1);
    RoundTrip.BoundsInFile(n - 1, |file|);
    RoundTrip.DecryptUndoesEncrypt(c, ivs[n - 1], RoundTrip.FileChunk(file, n - 1));
  }

  /** What the meter is charged for a file is the size of the file before encryption. */
  lemma ChargedForFile(c: RoundTrip.Cipher, ivs: seq<Bytes>, file: Bytes, f: VaultFile)
    requires RoundTrip.Lawful(c) && file != [] && RoundTrip.FreshIvs(ivs, file)
    requires Holds(f, RoundTrip.EncryptedChunks(c, ivs, file))
    ensures Plain(f) == |file|
  {
    hide RoundTrip.Lawful;
    SizeOfEncrypted(c, ivs, file);
    StoredIsConcat(f.posted, RoundTrip.EncryptedChunks(c, ivs, file));
    ChargesAddUp(f.posted, f.chunks);
  }
}
