/** The file cache of the server: filling it, reading from it, its locks and its evictions. */
module Cache {
  import opened Constants
  import opened Multipart
  import opened Results
  import opened Uploads
  import opened RoundTrip

  datatype CachedFile = CachedFile(data: Bytes, modTime: int)

  type Dir = map<string, CachedFile>

  // ----- Sizes

  /** The size of the named files of a directory. */
  ghost function SizeOf(dir: Dir, names: set<string>): nat
    requires names <= dir.Keys
  {
    if names == {} then 0
    else
      var f :| f in names;
      |dir[f].data| + SizeOf(dir, names - {f})
  }

  ghost function DirSize(dir: Dir): nat {
    SizeOf(dir, dir.Keys)
  }

  lemma {:induction false} SizeOfRemove(dir: Dir, names: set<string>, f: string)
    requires names <= dir.Keys && f in names
    ensures SizeOf(dir, names) == |dir[f].data| + SizeOf(dir, names - {f})
  {
    var g :| g in names && SizeOf(dir, names) == |dir[g].data| + SizeOf(dir, names - {g});
    if g == f {
    } else {
      SizeOfRemove(dir, names - {g}, f);
      SizeOfRemove(dir, names - {f}, g);
      assert names - {f} - {g} == names - {g} - {f};
    }
  }

  lemma {:induction false} SizeOfSame(dir: Dir, dir': Dir, names: set<string>)
    requires names <= dir.Keys && names <= dir'.Keys && forall f :: f in names ==> dir[f].data == dir'[f].data
    ensures SizeOf(dir, names) == SizeOf(dir', names)
  {
    if names == {} {
    } else {
      var f :| f in names;
      SizeOfRemove(dir, names, f);
      SizeOfRemove(dir', names, f);
      SizeOfSame(dir, dir', names - {f});
    }
  }

  lemma {:induction false} SizeOfSubset(dir: Dir, some: set<string>, names: set<string>)
    requires some <= names <= dir.Keys
    ensures SizeOf(dir, some) <= SizeOf(dir, names)
  {
    if some == {} {
    } else {
      var f :| f in some;
      SizeOfRemove(dir, some, f);
      SizeOfRemove(dir, names, f);
      SizeOfSubset(dir, some - {f}, names - {f});
    }
  }

  function Locked(dir: Dir, locks: seq<string>): set<string> {
    set f | f in dir && f in locks
  }

  /** The bytes of the files that cannot be evicted. */
  ghost function LockedBytes(dir: Dir, locks: seq<string>): nat {
    SizeOf(dir, Locked(dir, locks))
  }

  // ----- Eviction

  function FileTime(dir: Dir, accessMap: map<string, int>, f: string): int
    requires f in dir
  {
    if f in accessMap then accessMap[f] else dir[f].modTime
  }

  /** The evicted files were not locked, and none was used later than a remaining unlocked one. */
  ghost predicate EvictedOldest(before: Dir, after: Dir, locks: seq<string>, accessMap: map<string, int>) {
    && after.Keys <= before.Keys
    && (forall f :: f in after ==> after[f] == before[f])
    && (forall f :: f in before && f !in after ==> f !in locks)
    && (forall f, g :: f in before && f !in after && g in after && g !in locks ==>
                         FileTime(before, accessMap, f) <= FileTime(before, accessMap, g))
  }

  /** A file that has been read goes after any unlocked one that was read before it, or was written before
      that and never read; files that were never read go in the order in which they were written. */
  lemma LastUsedStays(before: Dir, after: Dir, locks: seq<string>, accessMap: map<string, int>, f: string, g: string)
    requires EvictedOldest(before, after, locks, accessMap) && f in before && g in before && g !in locks
    requires if f in accessMap then
               if g in accessMap then accessMap[g] < accessMap[f] else before[g].modTime < accessMap[f]
             else
               if g in accessMap then accessMap[g] < before[f].modTime else before[g].modTime < before[f].modTime
    ensures f !in after ==> g !in after
  {
  }

  /** Not more has been evicted than necessary: without the file evicted last, which is one that
      was used latest of the evicted ones, there was no room. */
  ghost predicate NoneTooMany(before: Dir, after: Dir, accessMap: map<string, int>, size: int, max: int) {
    after != before ==> exists f :: EvictedLast(before, after, accessMap, size, max, f)
  }

  ghost predicate EvictedLast(before: Dir, after: Dir, accessMap: map<string, int>, size: int, max: int, f: string) {
    && f in before && f !in after && DirSize(after) + |before[f].data| + size > max
    && forall e :: e in before && e !in after ==> FileTime(before, accessMap, e) <= FileTime(before, accessMap, f)
  }

  /** Some file is unlocked as long as the files take more than the locked bytes. */
  lemma AllLocked(dir: Dir, locks: seq<string>)
    ensures (forall f :: f in dir ==> f in locks) ==> DirSize(dir) == LockedBytes(dir, locks)
  {
    if forall f :: f in dir ==> f in locks {
      assert Locked(dir, locks) == dir.Keys;
    }
  }

  lemma LockedRemain(before: Dir, after: Dir, locks: seq<string>, accessMap: map<string, int>)
    requires EvictedOldest(before, after, locks, accessMap)
    ensures LockedBytes(after, locks) == LockedBytes(before, locks)
  {
    assert Locked(after, locks) == Locked(before, locks);
    SizeOfSame(before, after, Locked(before, locks));
  }

  /** If the locked files leave no room, no sequence of evictions makes any, so that the loop of
      PrepCache does not end: RemoveOldestUnlockedFile keeps reporting success. */
  lemma NeverFits(before: Dir, after: Dir, locks: seq<string>, accessMap: map<string, int>, size: int, max: int)
    requires EvictedOldest(before, after, locks, accessMap) && LockedBytes(before, locks) + size > max
    ensures DirSize(after) + size > max
  {
    LockedRemain(before, after, locks, accessMap);
    SizeOfSubset(after, Locked(after, locks), after.Keys);
  }

  /** One locked file is enough: any file that does not fit beside it makes the loop run forever,
      although it would fit into the empty cache. */
  lemma OneLockedFileBlocks(id: string, f: CachedFile, size: int, max: int, after: Dir, accessMap: map<string, int>)
    requires |f.data| <= max && max - |f.data| < size <= max
    ensures EvictedOldest(map[id := f], after, [id], accessMap) ==> DirSize(after) + size > max
  {
    if EvictedOldest(map[id := f], after, [id], accessMap) {
      var dir := map[id := f];
      assert Locked(dir, [id]) == {id};
      SizeOfRemove(dir, {id}, id);
      NeverFits(dir, after, [id], accessMap, size, max);
    }
  }

  lemma EvictOneMore(before: Dir, mid: Dir, f: string, locks: seq<string>, accessMap: map<string, int>, size: int, max: int)
    requires EvictedOldest(before, mid, locks, accessMap) && DirSize(mid) + size > max
    requires f in mid && f !in locks
    requires forall g :: g in mid && g !in locks ==> FileTime(mid, accessMap, f) <= FileTime(mid, accessMap, g)
    ensures EvictedOldest(before, mid - {f}, locks, accessMap)
    ensures EvictedLast(before, mid - {f}, accessMap, size, max, f)
  {
    DirSizeRemove(mid, f);
  }

  lemma DirSizeRemove(dir: Dir, f: string)
    requires f in dir
    ensures DirSize(dir - {f}) == DirSize(dir) - |dir[f].data|
  {
    assert (dir - {f}).Keys == dir.Keys - {f};
    SizeOfRemove(dir, dir.Keys, f);
    SizeOfSame(dir, dir - {f}, dir.Keys - {f});
  }

  // ----- Locks

  function LocksAfterRead(locks: multiset<string>, id: string, start: int, end: int): multiset<string> {
    var l := if start == 0 then locks + multiset{id} else locks;
    if start > 0 && end - start < CHUNK_SIZE then l - multiset{id} else l
  }

  /** The locks after the chunks 1 to k of an object of this length have been read in order. */
  function LocksAfterReads(locks: multiset<string>, id: string, length: int, k: nat): multiset<string> {
    if k == 0 then locks
    else
      var (start, end, _) := GetReadBoundaries(k, length);
      LocksAfterRead(LocksAfterReads(locks, id, length, k - 1), id, start, end)
  }

  lemma {:induction false} LockedWhileReading(locks: multiset<string>, id: string, parts: seq<Bytes>, k: nat)
    requires ChunkSized(parts) && 1 <= k <= |parts| && (k < |parts| || |parts| == 1)
    ensures LocksAfterReads(locks, id, |Concat(parts)|, k) == locks + multiset{id}
  {
    BoundariesPartition(parts, k);
    PartAt(parts, k - 1);
    if k == 1 {
      assert LocksAfterReads(locks, id, |Concat(parts)|, 0) == locks;
    } else {
      LockedWhileReading(locks, id, parts, k - 1);
    }
  }

  lemma LastBoundaries(parts: seq<Bytes>)
    requires ChunkSized(parts) && |parts| > 1
    ensures var (start, end, _) := GetReadBoundaries(|parts|, |Concat(parts)|);
            start > 0 && end - start == |parts[|parts| - 1]| - 1
  {
    PartAt(parts, |parts| - 1);
  }

  /** Reading a cached file from the first to the last chunk gives the lock back exactly if there
      are several chunks and the encrypted last one is at most CHUNK_SIZE long; otherwise the file
      stays locked. */
  lemma LockIsReturnedIff(locks: multiset<string>, id: string, parts: seq<Bytes>)
    requires ChunkSized(parts)
    ensures LocksAfterReads(locks, id, |Concat(parts)|, |parts|) ==
              if |parts| > 1 && |parts[|parts| - 1]| <= CHUNK_SIZE then locks else locks + multiset{id}
  {
    assert |parts| >= 1;
    hide Concat, ChunkSized, LocksAfterReads, GetReadBoundaries;
    if |parts| == 1 {
      LockedWhileReading(locks, id, parts, 1);
    } else {
      LockedWhileReading(locks, id, parts, |parts| - 1);
      LastBoundaries(parts);
      LastRead(locks, id, |Concat(parts)|, |parts|);
    }
  }

  lemma LastRead(locks: multiset<string>, id: string, length: int, n: nat)
    requires n > 1 && LocksAfterReads(locks, id, length, n - 1) == locks + multiset{id}
    requires GetReadBoundaries(n, length).0 > 0
    ensures LocksAfterReads(locks, id, length, n) ==
              if GetReadBoundaries(n, length).1 - GetReadBoundaries(n, length).0 < CHUNK_SIZE then locks
              else locks + multiset{id}
  {
    assert locks + multiset{id} - multiset{id} == locks;
  }

  lemma MoveLast(s: seq<string>, i: nat)
    requires i < |s|
    ensures multiset(s[i := s[|s| - 1]][..|s| - 1]) == multiset(s) - multiset{s[i]}
  {
    var front, last := s[..|s| - 1], s[|s| - 1];
    assert s == front + [last];
    if i < |front| {
      assert s[i := last][..|s| - 1] == front[i := last];
      assert multiset(front[i := last]) == multiset(front) - multiset{front[i]} + multiset{last};
    } else {
      assert s[i := last][..|s| - 1] == front;
    }
  }

  // ----- Filling

  /** The cached file holds the first k chunks. */
  ghost predicate Filled(dir: Dir, id: string, parts: seq<Bytes>, k: nat)
    requires k <= |parts|
  {
    if k == 0 then id !in dir else id in dir && dir[id].data == Concat(parts[..k])
  }

  predicate HasFile(dir: Dir, id: string, length: int) {
    id != "" && id in dir && |dir[id].data| == length
  }

  /** A file that is filled chunk by chunk is taken for complete exactly after the last chunk. */
  lemma HasFileIffFull(dir: Dir, id: string, parts: seq<Bytes>, k: nat)
    requires ChunkSized(parts) && k <= |parts| && id != "" && Filled(dir, id, parts, k)
    ensures HasFile(dir, id, |Concat(parts)|) <==> k == |parts|
  {
    PartAt(parts, |parts| - 1);
    if k == |parts| {
      assert parts[..k] == parts;
    } else {
      PrefixLength(parts[..k]);
    }
  }

  /** The bytes from start to end of a cached file, all of it if the end is negative. None stands
      for the panic of a negative length, and for the error of a read past the end. */
  function ReadAt(data: Bytes, start: int, end: int): Option<Bytes> {
    if end < 0 then Some(data)
    else if 0 <= start <= end + 1 <= |data| then Some(data[start..end + 1])
    else None
  }

  /** What is read from a complete cached file is what a range request would have returned. */
  lemma CachedReadIsRangeRead(parts: seq<Bytes>, chunk: nat)
    requires ChunkSized(parts) && 1 <= chunk <= |parts|
    ensures var (start, end, _) := GetReadBoundaries(chunk, |Concat(parts)|);
            && ReadAt(Concat(parts), start, end) == Some(parts[chunk - 1])
            && PartialDownload(Concat(parts), start, end) == Ok(parts[chunk - 1])
  {
    BoundariesPartition(parts, chunk);
    ReadIsChunk(parts, chunk);
  }

  // ----- What requests do to the directory

  /** A request for a chunk of a stored object, during which files may be evicted, or the removal
      of a cached file. */
  datatype DirEvent = Serve(id: string, obj: Bytes, chunk: nat, evicted: set<string>, now: int) | Remove(id: string)

  function Appended(dir: Dir, id: string, data: Bytes, now: int): Dir {
    dir[id := CachedFile((if id in dir then dir[id].data else []) + data, now)]
  }

  /** A complete file is left alone; otherwise the chunk is appended after the evictions. */
  function DirAfter(dir: Dir, e: DirEvent): Dir {
    match e
    case Remove(id) => dir - {id}
    case Serve(id, obj, chunk, evicted, now) =>
      if HasFile(dir, id, |obj|) then dir
      else
        match DownloadFile(obj, chunk).1
        case Ok(data) => Appended(dir - evicted, id, data, now)
        case Err(_) => dir - evicted
  }

  /** The bytes that a request gets: from the complete cached file or from the storage. */
  function Served(dir: Dir, id: string, obj: Bytes, chunk: nat): Option<Bytes> {
    var (start, end, _) := GetReadBoundaries(chunk, |obj|);
    if HasFile(dir, id, |obj|) then ReadAt(dir[id].data, start, end)
    else
      match PartialDownload(obj, start, end)
      case Ok(data) => Some(data)
      case Err(_) => None
  }

  // ----- The cache

  class FileCache {
    const enabled: bool
    const maxCacheSize: int
    const maxCachedFileSize: int
    var writeMap: map<string, int>
    var accessMap: map<string, int>
    var locks: seq<string>
    var dir: Dir

    constructor (enabled: bool, maxCacheSize: int, maxCachedFileSize: int)
      ensures this.enabled == enabled && this.maxCacheSize == maxCacheSize && this.maxCachedFileSize == maxCachedFileSize
      ensures writeMap == map[] && accessMap == map[] && locks == [] && dir == map[]
    {
      this.enabled, this.maxCacheSize, this.maxCachedFileSize := enabled, maxCacheSize, maxCachedFileSize;
      writeMap, accessMap, locks, dir := map[], map[], [], map[];
    }

    method CheckDirSize() returns (total: nat)
      ensures total == DirSize(dir)
    {
      total := 0;
      var rest := dir.Keys;
      while rest != {}
        invariant rest <= dir.Keys && total + SizeOf(dir, rest) == DirSize(dir)
        decreases |rest|
      {
        var f :| f in rest;
        SizeOfRemove(dir, rest, f);
        total := total + |dir[f].data|;
        rest := rest - {f};
      }
    }

    /** Every file has last been used before this point in time. */
    ghost predicate Past(now: int)
      reads this
    {
      forall f :: f in dir ==> FileTime(dir, accessMap, f) < now
    }

    /** Removes one unlocked file that has not been used for longest, if there is one. */
    method RemoveOldestUnlockedFile(now: int)
      requires Past(now)
      modifies this`dir
      ensures (forall f :: f in old(dir) ==> f in locks) ==> dir == old(dir)
      ensures (exists f :: f in old(dir) && f !in locks) ==>
                exists f :: f in old(dir) && IsOldest(old(dir), old(dir).Keys, f) && dir == old(dir) - {f}
    {
      var oldest: Option<string> := None;
      var oldestTime := now;
      var rest := dir.Keys;
      while rest != {}
        invariant rest <= dir.Keys
        invariant oldest == None ==> oldestTime == now && forall f :: f in dir && f !in rest ==> f in locks
        invariant oldest.Some? ==>
                    && IsOldest(dir, dir.Keys - rest, oldest.value)
                    && oldestTime == FileTime(dir, accessMap, oldest.value)
        decreases |rest|
      {
        var f :| f in rest;
        rest := rest - {f};
        if f !in locks && FileTime(dir, accessMap, f) < oldestTime {
          oldestTime, oldest := FileTime(dir, accessMap, f), Some(f);
        }
      }
      if oldest.Some? {
        assert dir.Keys - rest == dir.Keys;
        dir := dir - {oldest.value};
      }
    }

    /** f is unlocked, and no unlocked file among the others has been used earlier. */
    ghost predicate IsOldest(dir: Dir, names: set<string>, f: string)
      reads this
      requires names <= dir.Keys
    {
      && f in names && f !in locks
      && forall g :: g in names && g !in locks ==> FileTime(dir, accessMap, f) <= FileTime(dir, accessMap, g)
    }

    predicate IsCacheable(id: string, size: int) {
      enabled && size <= maxCachedFileSize && size <= maxCacheSize && id != ""
    }

    /** Makes room for a file. The precondition is exactly when the loop ends, see NeverFits. */
    method PrepCache(id: string, size: int, now: int)
      requires IsCacheable(id, size) && DirSize(dir) + size > maxCacheSize ==>
                 LockedBytes(dir, locks) + size <= maxCacheSize && Past(now)
      modifies this`dir, this`writeMap
      ensures !IsCacheable(id, size) ==> dir == old(dir) && writeMap == old(writeMap)
      ensures IsCacheable(id, size) ==> DirSize(dir) + size <= maxCacheSize && writeMap == old(writeMap)[id := size]
      ensures !enabled || size > maxCachedFileSize || size > maxCacheSize || id == "" ==> dir == old(dir) && writeMap == old(writeMap)
      ensures enabled && size <= maxCachedFileSize && size <= maxCacheSize && id != "" ==> id in writeMap
      ensures EvictedOldest(old(dir), dir, locks, accessMap)
      ensures NoneTooMany(old(dir), dir, accessMap, size, maxCacheSize)
      ensures old(DirSize(dir)) + size <= maxCacheSize ==> dir == old(dir)
    {
      if !enabled || size > maxCachedFileSize || size > maxCacheSize || id == "" {
        return;
      }
      var total := CheckDirSize();
      while total + size > maxCacheSize
        invariant total == DirSize(dir) && writeMap == old(writeMap)
        invariant EvictedOldest(old(dir), dir, locks, accessMap)
        invariant NoneTooMany(old(dir), dir, accessMap, size, maxCacheSize)
        invariant dir == old(dir) || old(DirSize(dir)) + size > maxCacheSize
        decreases |dir|
      {
        LockedRemain(old(dir), dir, locks, accessMap);
        AllLocked(dir, locks);
        EvictNext(old(dir), size, now);
        total := CheckDirSize();
      }
      writeMap := writeMap[id := size];
    }

    /** One more eviction. */
    method EvictNext(ghost before: Dir, size: int, now: int)
      requires EvictedOldest(before, dir, locks, accessMap) && (forall f :: f in before ==> FileTime(before, accessMap, f) < now)
      requires (exists f :: f in dir && f !in locks) && DirSize(dir) + size > maxCacheSize
      modifies this`dir
      ensures EvictedOldest(before, dir, locks, accessMap) && |dir| < |old(dir)|
      ensures NoneTooMany(before, dir, accessMap, size, maxCacheSize)
    {
      RemoveOldestUnlockedFile(now);
      ghost var f :| f in old(dir) && IsOldest(old(dir), old(dir).Keys, f) && dir == old(dir) - {f};
      EvictOneMore(before, old(dir), f, locks, accessMap, size, maxCacheSize);
      assert dir.Keys == old(dir).Keys - {f};
    }

    /** Appends to the cached file, if there is to be one. */
    method Write(id: string, data: Bytes, now: int)
      modifies this`dir
      ensures id == "" || !enabled || id !in writeMap ==> dir == old(dir)
      ensures id != "" && enabled && id in writeMap ==>
                dir == Appended(old(dir), id, data, now)
    {
      if id == "" || !enabled || id !in writeMap {
        return;
      }
      dir := dir[id := CachedFile((if id in dir then dir[id].data else []) + data, now)];
    }

    /** Removes the first occurrence: the last lock moves into its place. */
    static method RemoveLock(currentLocks: seq<string>, id: string) returns (r: seq<string>)
      ensures multiset(r) == multiset(currentLocks) - multiset{id}
    {
      var n := |currentLocks|;
      for i := 0 to n
        invariant id !in currentLocks[..i]
      {
        if currentLocks[i] == id {
          MoveLast(currentLocks, i);
          return currentLocks[i := currentLocks[n - 1]][..n - 1];
        }
      }
      assert id !in multiset(currentLocks);
      r := currentLocks;
    }

    /** Reads part of a cached file; None if it fails. */
    method Read(id: string, start: int, end: int, now: int) returns (data: Option<Bytes>)
      modifies this`accessMap, this`locks
      ensures enabled && id != "" && id in dir ==>
                data == ReadAt(dir[id].data, start, end) && accessMap == old(accessMap)[id := now]
      ensures data.Some? ==> multiset(locks) == LocksAfterRead(multiset(old(locks)), id, start, end)
      ensures enabled && id != "" && id in dir && data.None? ==>
                locks == old(locks) + if start == 0 then [id] else []
      ensures !enabled || id == "" || id !in dir ==> data == None && locks == old(locks) && accessMap == old(accessMap)
    {
      if !enabled || id == "" || id !in dir {
        return None;
      }
      if start == 0 {
        locks := locks + [id];
      }
      accessMap := accessMap[id := now];
      data := ReadAt(dir[id].data, start, end);
      if data.Some? && start > 0 && end - start < CHUNK_SIZE {
        locks := RemoveLock(locks, id);
      }
    }

    /** The handlers' calls append a chunk that they had to fetch. */
    predicate Appends(id: string, size: int)
      reads this
    {
      IsCacheable(id, size) || (enabled && id != "" && id in writeMap)
    }

    /** The download handlers: a chunk from the cache if the file is complete there, otherwise
        from the storage, adding it to the cache. A file that survives the evictions keeps its
        bytes, and the requested one gets those of the chunk appended. */
    method ServeChunk(id: string, obj: Bytes, chunk: nat, now: int)
      returns (eof: bool, data: Result<Bytes, Error>, ghost evicted: set<string>)
      requires chunk >= 1
      requires !HasFile(dir, id, |obj|) && IsCacheable(id, |obj|) && DirSize(dir) + |obj| > maxCacheSize ==>
                 LockedBytes(dir, locks) + |obj| <= maxCacheSize && Past(now)
      modifies this
      ensures eof == DownloadFile(obj, chunk).0
      ensures enabled || !HasFile(old(dir), id, |obj|) ==>
                match Served(old(dir), id, obj, chunk) case Some(bytes) => data == Ok(bytes) case None => data.Err?
      ensures old(Appends(id, |obj|)) || HasFile(old(dir), id, |obj|) ==>
                dir == DirAfter(old(dir), DirEvent.Serve(id, obj, chunk, evicted, now))
      ensures !old(Appends(id, |obj|)) ==> dir == old(dir) && evicted == {}
      ensures id !in old(writeMap) && (!enabled || |obj| > maxCachedFileSize || |obj| > maxCacheSize || id == "") ==> dir == old(dir)
      ensures EvictedOldest(old(dir), old(dir) - evicted, locks, old(accessMap))
      ensures NoneTooMany(old(dir), old(dir) - evicted, old(accessMap), |obj|, maxCacheSize)
      ensures old(DirSize(dir)) + |obj| <= maxCacheSize ==> evicted == {}
      ensures HasFile(old(dir), id, |obj|) ==> evicted == {} && writeMap == old(writeMap)
      ensures !HasFile(old(dir), id, |obj|) ==> locks == old(locks) && accessMap == old(accessMap)
    {
      var (start, end, last) := GetReadBoundaries(chunk, |obj|);
      eof, evicted := last, {};
      assert dir - {} == dir;
      if HasFile(dir, id, |obj|) {
        var cached := Read(id, start, end, now);
        data := if cached.Some? then Ok(cached.value) else Err(RangeNotSatisfiable);
        AnyEvictions(dir, locks, old(accessMap), |obj|, maxCacheSize);
      } else {
        PrepCache(id, |obj|, now);
        evicted := old(dir).Keys - dir.Keys;
        assert dir == old(dir) - evicted;
        data := PartialDownload(obj, start, end);
        if data.Ok? {
          Write(id, data.value, now);
        }
      }
    }

    /** A first download in order, from the storage, of a file that is neither cached nor known to
        the cache; any files may be evicted by it, its own part included. At the end the chunks since
        the last such loss are in the cache, and the file counts as complete only if these are all.
        They are, if its own bytes and the locked files leave room for it. */
    method FirstDownload(id: string, parts: seq<Bytes>, now: int) returns (served: seq<Bytes>, ghost since: nat)
      requires ChunkSized(parts) && id !in dir && id !in accessMap && IsCacheable(id, |Concat(parts)|) && Past(now)
      requires LockedBytes(dir, locks) + |Concat(parts)| <= maxCacheSize && id !in locks
      modifies this
      ensures served == parts && locks == old(locks) && accessMap == old(accessMap)
      ensures since < |parts| && id in dir && dir[id].data == Concat(parts[since..])
      ensures HasFile(dir, id, |Concat(parts)|) <==> since == 0
      ensures HasRoom(old(dir), old(locks), parts, maxCacheSize) ==> since == 0
      ensures EvictedOldest(old(dir), dir - {id}, locks, accessMap)
    {
      served, since := [], 0;
      for k := 0 to |parts|
        invariant served == parts[..k] && locks == old(locks) && accessMap == old(accessMap)
        invariant since <= k && (k > 0 ==> since < k) && (HasRoom(old(dir), locks, parts, maxCacheSize) ==> since == 0)
        invariant Filling(old(dir), dir, id, parts, since, k, now, locks, accessMap)
      {
        var next;
        next, since := FetchNext(old(dir), id, parts, since, k, now);
        served := served + [next];
      }
      assert parts[..|parts|] == parts && parts[since..|parts|] == parts[since..];
      SinceIsFull(parts, since, |parts|);
    }

    /** Chunk k + 1 of such a download; the cached part begins at chunk `since` + 1, or at this one if
        it is evicted now. */
    method FetchNext(ghost start: Dir, id: string, parts: seq<Bytes>, ghost since: nat, k: nat, now: int)
      returns (bytes: Bytes, ghost since': nat)
      requires ChunkSized(parts) && since <= k < |parts| && id !in start && id !in accessMap && id !in locks
      requires IsCacheable(id, |Concat(parts)|) && Filling(start, dir, id, parts, since, k, now, locks, accessMap)
      requires forall f :: f in start ==> FileTime(start, accessMap, f) < now
      requires LockedBytes(start, locks) + |Concat(parts)| <= maxCacheSize
      requires HasRoom(start, locks, parts, maxCacheSize) ==> since == 0
      modifies this
      ensures bytes == parts[k] && locks == old(locks) && accessMap == old(accessMap)
      ensures since' == since || since' == k
      ensures HasRoom(start, locks, parts, maxCacheSize) ==> since' == 0
      ensures Filling(start, dir, id, parts, since', k + 1, now, locks, accessMap)
    {
      SinceIsFull(parts, since, k);
      ReadIsChunk(parts, k + 1);
      FillingLocked(start, dir, id, parts, since, k, now, locks, accessMap);
      hide Concat, EvictedOldest, NoneTooMany, LockedBytes, ReadAt, GetReadBoundaries, FileTime, ChunkSized, HasRoom, DirSize;
      ghost var before := dir;
      var _, data, evicted := ServeChunk(id, Concat(parts), k + 1, now + k);
      if HasRoom(start, locks, parts, maxCacheSize) {
        FillingSpared(start, before, id, parts, k, now, locks, accessMap, maxCacheSize, evicted);
      }
      since' := if id in before && id in evicted then k else since;
      FillingNext(start, before, dir, id, parts, since, k, now, locks, accessMap, evicted);
      bytes := data.value;
    }
  }

  // ----- A first download

  /** The chunks after the first `since` ones, up to chunk k, are cached, the last of them at the time
      now + k - 1; of the other files some have been evicted. */
  ghost predicate Filling(start: Dir, dir: Dir, id: string, parts: seq<Bytes>, since: nat, k: nat, now: int,
                          locks: seq<string>, accessMap: map<string, int>)
    requires since <= k <= |parts|
  {
    && (if since == k then id !in dir else id in dir && dir[id].data == Concat(parts[since..k]))
    && (id in dir ==> dir[id].modTime == now + k - 1)
    && EvictedOldest(start, dir - {id}, locks, accessMap)
  }

  /** Beside the locked files there is room for the file and once more for all but its last chunk:
      PrepCache counts the cached part again at every chunk. */
  ghost predicate HasRoom(dir: Dir, locks: seq<string>, parts: seq<Bytes>, max: int)
    requires parts != []
  {
    LockedBytes(dir, locks) + |Concat(parts[..|parts| - 1])| + |Concat(parts)| <= max
  }

  /** A part of the chunks has the size of the file only if it is all of them. */
  lemma SinceIsFull(parts: seq<Bytes>, since: nat, k: nat)
    requires ChunkSized(parts) && since <= k <= |parts|
    ensures |Concat(parts[since..k])| == |Concat(parts)| <==> since == 0 && k == |parts|
    ensures |Concat(parts)| > 0
  {
    PartAt(parts, |parts| - 1);
    var some := parts[since..k];
    if k < |parts| {
      PrefixLength(some);
    } else if since < k {
      PartAt(some, |some| - 1);
      assert since == 0 ==> some == parts;
    }
  }

  lemma AnyEvictions(dir: Dir, locks: seq<string>, accessMap: map<string, int>, size: int, max: int)
    ensures EvictedOldest(dir, dir, locks, accessMap) && NoneTooMany(dir, dir, accessMap, size, max)
  {
  }

  lemma FillingLocked(start: Dir, dir: Dir, id: string, parts: seq<Bytes>, since: nat, k: nat, now: int,
                      locks: seq<string>, accessMap: map<string, int>)
    requires since <= k <= |parts| && id !in start && id !in accessMap && id !in locks
    requires Filling(start, dir, id, parts, since, k, now, locks, accessMap)
    requires forall f :: f in start ==> FileTime(start, accessMap, f) < now
    ensures LockedBytes(dir, locks) == LockedBytes(start, locks)
    ensures forall f :: f in dir ==> FileTime(dir, accessMap, f) < now + k
  {
    LockedRemain(start, dir - {id}, locks, accessMap);
    assert Locked(dir - {id}, locks) == Locked(dir, locks);
    SizeOfSame(dir - {id}, dir, Locked(dir, locks));
    forall f | f in dir
      ensures FileTime(dir, accessMap, f) < now + k
    {
      if f != id {
        assert f in dir - {id} && f in start && dir[f] == start[f];
        assert FileTime(start, accessMap, f) < now;
      }
    }
  }

  /** The file being filled is the one used last, so it would go only if that were necessary. */
  lemma FillingSpared(start: Dir, dir: Dir, id: string, parts: seq<Bytes>, k: nat, now: int,
                      locks: seq<string>, accessMap: map<string, int>, max: int, evicted: set<string>)
    requires ChunkSized(parts) && k < |parts| && id !in start && id !in accessMap && id !in locks
    requires Filling(start, dir, id, parts, 0, k, now, locks, accessMap)
    requires forall f :: f in start ==> FileTime(start, accessMap, f) < now
    requires HasRoom(start, locks, parts, max)
    requires EvictedOldest(dir, dir - evicted, locks, accessMap)
    requires NoneTooMany(dir, dir - evicted, accessMap, |Concat(parts)|, max)
    ensures id in dir ==> id !in evicted
  {
    if id in dir && id in evicted {
      var after := dir - evicted;
      FilledLast(start, dir, id, parts, k, now, locks, accessMap);
      OnlyLockedStay(dir, after, id, locks, accessMap, |Concat(parts)|, max);
      AllLocked(after, locks);
      LockedRemain(dir, after, locks, accessMap);
      FillingLocked(start, dir, id, parts, 0, k, now, locks, accessMap);
      hide FileTime, EvictedOldest, NoneTooMany, LockedBytes, DirSize, Concat;
      PrefixSizes(parts, k);
    }
  }

  lemma FilledLast(start: Dir, dir: Dir, id: string, parts: seq<Bytes>, k: nat, now: int,
                   locks: seq<string>, accessMap: map<string, int>)
    requires k <= |parts| && id !in start && id !in accessMap && id in dir
    requires Filling(start, dir, id, parts, 0, k, now, locks, accessMap)
    requires forall f :: f in start ==> FileTime(start, accessMap, f) < now
    ensures forall g :: g in dir && g != id ==> FileTime(dir, accessMap, g) < FileTime(dir, accessMap, id)
  {
    forall g | g in dir && g != id
      ensures FileTime(dir, accessMap, g) < FileTime(dir, accessMap, id)
    {
      assert g in dir - {id} && g in start && dir[g] == start[g];
      assert FileTime(start, accessMap, g) < now;
    }
  }

  /** If the file used last is evicted, all files that stay are locked, and without it there was no room. */
  lemma OnlyLockedStay(dir: Dir, after: Dir, id: string, locks: seq<string>, accessMap: map<string, int>, size: int, max: int)
    requires id in dir && id !in after
    requires EvictedOldest(dir, after, locks, accessMap) && NoneTooMany(dir, after, accessMap, size, max)
    requires forall g :: g in dir && g != id ==> FileTime(dir, accessMap, g) < FileTime(dir, accessMap, id)
    ensures forall g :: g in after ==> g in locks
    ensures DirSize(after) + |dir[id].data| + size > max
  {
    hide FileTime, DirSize;
    var f :| EvictedLast(dir, after, accessMap, size, max, f);
    assert f == id;
  }

  lemma FillingNext(start: Dir, before: Dir, dir: Dir, id: string, parts: seq<Bytes>, since: nat, k: nat, now: int,
                    locks: seq<string>, accessMap: map<string, int>, evicted: set<string>)
    requires ChunkSized(parts) && since <= k < |parts| && id !in start && id !in accessMap
    requires Filling(start, before, id, parts, since, k, now, locks, accessMap)
    requires EvictedOldest(before, before - evicted, locks, accessMap)
    requires dir == Appended(before - evicted, id, parts[k], now + k)
    ensures Filling(start, dir, id, parts, if id in before && id in evicted then k else since, k + 1, now, locks, accessMap)
  {
    NextPart(parts, since, k);
    NextPart(parts, k, k);
    OthersEvicted(start, before, dir, id, evicted, locks, accessMap);
    hide EvictedOldest, Concat;
  }

  lemma NextPart(parts: seq<Bytes>, since: nat, k: nat)
    requires since <= k < |parts|
    ensures Concat(parts[since..k + 1]) == Concat(parts[since..k]) + parts[k]
    ensures since == k ==> Concat(parts[since..k]) == []
  {
    assert parts[since..k + 1][..k - since] == parts[since..k];
  }

  lemma OthersEvicted(start: Dir, before: Dir, dir: Dir, id: string, evicted: set<string>,
                      locks: seq<string>, accessMap: map<string, int>)
    requires id !in start && id !in accessMap && id in dir && dir - {id} == before - evicted - {id}
    requires EvictedOldest(start, before - {id}, locks, accessMap)
    requires EvictedOldest(before, before - evicted, locks, accessMap)
    ensures EvictedOldest(start, dir - {id}, locks, accessMap)
  {
  }

  lemma PrefixSizes(parts: seq<Bytes>, k: nat)
    requires ChunkSized(parts) && k < |parts|
    ensures |Concat(parts[..k])| <= |Concat(parts[..|parts| - 1])| <= |Concat(parts)|
    ensures Concat(parts[..k + 1]) == Concat(parts[..k]) + parts[k]
  {
    PrefixLength(parts[..k]);
    PrefixLength(parts[..|parts| - 1]);
    assert parts[..k + 1][..k] == parts[..k];
  }
}
