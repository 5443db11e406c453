/** Sent files: chunk downloads by way of the cache, the download counter, and the deletion. */
module Sent {
  import opened Results
  import opened Constants
  import opened Multipart
  import opened Uploads
  import opened RoundTrip
  import Cache
  import CacheFill

  /** A sent file with its expiry row, or no file any more. A negative number of downloads means
      that there is no limit; files with none are refused when they are sent. */
  datatype SentFile = Gone | Live(downloads: int, expires: int)

  /** The file and the bytes that the cache holds under its identifier, none if there are none. */
  datatype State = State(file: SentFile, cached: Bytes)

  /** A request for a chunk, or the loss of the cached copy by an eviction. */
  datatype Event = Request(chunk: int, now: int) | Lose

  /** The row after DecrementDownloads, and what it returns: -1 for no limit. */
  function Decremented(downloads: int): (int, int) {
    var d := if downloads > 0 then downloads - 1 else downloads;
    (d, if d >= 0 then d else -1)
  }

  /** The bytes of a chunk and whether they reach the end of the file; None if the request fails
      before the counter is looked at. A cached file of the right size is taken for complete. */
  function Fetched(obj: Bytes, cached: Bytes, chunk: int): Option<(bool, Bytes)> {
    var (start, end, eof) := GetReadBoundaries(chunk, |obj|);
    if |cached| == |obj| then
      match Cache.ReadAt(cached, start, end)
      case Some(data) => Some((eof, data))
      case None => None
    else
      match PartialDownload(obj, start, end)
      case Ok(data) => Some((eof, data))
      case Err(_) => None
  }

  /** The cached bytes after a request: a chunk from the storage is appended. */
  function CachedAfter(caching: bool, obj: Bytes, cached: Bytes, data: Bytes): Bytes {
    if caching && |cached| != |obj| then cached + data else cached
  }

  /** DownloadChunkHandler: the state afterwards and the bytes that are sent. `caching` tells whether
      the cache takes the file. */
  function Serve(caching: bool, obj: Bytes, s: State, chunk: int, now: int): (State, Option<Bytes>) {
    if s.file.Gone? || s.file.expires < now then (s, None)
    else
      match Fetched(obj, s.cached, if chunk <= 0 then 1 else chunk)
      case None => (s, None)
      case Some((eof, data)) =>
        var cached := CachedAfter(caching, obj, s.cached, data);
        if !eof then (State(s.file, cached), Some(data))
        else
          var (downloads, rem) := Decremented(s.file.downloads);
          (if rem == 0 then State(Gone, []) else State(Live(downloads, s.file.expires), cached), Some(data))
  }

  class SentFileStore {
    const caching: bool
    var file: SentFile
    var cached: Bytes

    constructor (caching: bool, downloads: int, expires: int)
      ensures this.caching == caching && file == Live(downloads, expires) && cached == []
    {
      this.caching, file, cached := caching, Live(downloads, expires), [];
    }

    method DecrementDownloads() returns (rem: int)
      requires file.Live?
      modifies this`file
      ensures file == old(file).(downloads := Decremented(old(file).downloads).0)
      ensures rem == Decremented(old(file).downloads).1
      ensures old(file).downloads > 0 ==> file.downloads == rem == old(file).downloads - 1
      ensures old(file).downloads <= 0 ==> file == old(file) && rem == if file.downloads == 0 then 0 else -1
    {
      if file.downloads > 0 {
        file := file.(downloads := file.downloads - 1);
      }
      rem := if file.downloads >= 0 then file.downloads else -1;
    }

    method DownloadChunk(obj: Bytes, chunk: int, now: int) returns (data: Option<Bytes>)
      modifies this
      ensures (State(file, cached), data) == Serve(caching, obj, State(old(file), old(cached)), chunk, now)
      ensures old(file).Live? && now > old(file).expires ==> data == None && file == old(file) && cached == old(cached)
    {
      if file.Gone? || file.expires < now {
        return None;
      }
      var fetched := Fetched(obj, cached, if chunk <= 0 then 1 else chunk);
      if fetched.None? {
        return None;
      }
      var (eof, bytes) := fetched.value;
      if caching && |cached| != |obj| {
        cached := cached + bytes;
      }
      if eof {
        var rem := DecrementDownloads();
        if rem == 0 {
          file, cached := Gone, [];
        }
      }
      data := Some(bytes);
    }
  }

  // ----- Runs

  function Step(caching: bool, obj: Bytes, s: State, e: Event): State {
    match e
    case Lose => s.(cached := [])
    case Request(chunk, now) => Serve(caching, obj, s, chunk, now).0
  }

  function After(caching: bool, obj: Bytes, s: State, events: seq<Event>): State {
    if events == [] then s
    else Step(caching, obj, After(caching, obj, s, events[..|events| - 1]), events[|events| - 1])
  }

  /** What request i gets. */
  function Answer(caching: bool, obj: Bytes, s: State, events: seq<Event>, i: nat): Option<Bytes>
    requires i < |events| && events[i].Request?
  {
    Serve(caching, obj, After(caching, obj, s, events[..i]), events[i].chunk, events[i].now).1
  }

  predicate InTime(e: Event, expires: int) {
    e.Request? && e.now <= expires
  }

  /** Downloads begin with chunk 1, also if the path names none. */
  function Number(chunk: int): (k: nat)
    ensures k >= 1 && (chunk >= 1 ==> k == chunk) && (chunk < 1 ==> k == 1)
  {
    if chunk >= 1 then chunk else 1
  }

  /** How many of the requests before the expiration are for the last of n chunks. */
  function Finals(events: seq<Event>, n: nat, expires: int): nat {
    if events == [] then 0
    else
      var e := events[|events| - 1];
      Finals(events[..|events| - 1], n, expires) + if InTime(e, expires) && Number(e.chunk) == n then 1 else 0
  }

  /** Requests before and after the expiration; those before it are for chunks of the file. */
  predicate Proper(events: seq<Event>, n: nat, expires: int) {
    forall i :: 0 <= i < |events| ==> IsProperEvent(events[i], n, expires)
  }

  predicate IsProperEvent(e: Event, n: nat, expires: int) {
    InTime(e, expires) ==> Number(e.chunk) <= n
  }

  /** What the events mean for the cached file: nothing, if they are too late. */
  function Gets(caching: bool, events: seq<Event>, expires: int): seq<CacheFill.Event> {
    if events == [] then []
    else
      var e := events[|events| - 1];
      Gets(caching, events[..|events| - 1], expires)
      + if e.Lose? then [CacheFill.Lose]
        else if caching && InTime(e, expires) then [CacheFill.Get(Number(e.chunk))] else []
  }

  /** From any state a request after the expiration gets nothing and changes nothing, whatever chunk it is
      for; nor does a request for a file that is gone. A request that names no chunk is for the first. */
  lemma LateIsRefused(caching: bool, obj: Bytes, s: State, chunk: int, now: int)
    ensures s.file.Gone? || now > s.file.expires ==> Serve(caching, obj, s, chunk, now) == (s, None)
    ensures Serve(caching, obj, s, chunk, now) == Serve(caching, obj, s, Number(chunk), now)
  {
  }

  /** The bytes of the chunk follow from what is cached; whether it is the last one does not. */
  lemma FetchesChunk(parts: seq<Bytes>, cached: Bytes, k: nat)
    requires ChunkSized(parts) && 1 <= k <= |parts|
    ensures Fetched(Concat(parts), cached, k).Some? && Fetched(Concat(parts), cached, k).value.0 == (k == |parts|)
    ensures |cached| != |Concat(parts)| ==> Fetched(Concat(parts), cached, k).value.1 == parts[k - 1]
  {
    BoundariesPartition(parts, k);
    ReadIsChunk(parts, k);
  }

  /** Where a run with d downloads stands: the file is gone after d requests for its last chunk, and
      until then the cache holds what its own run says. */
  ghost predicate Stands(parts: seq<Bytes>, caching: bool, d: int, expires: int, events: seq<Event>, s: State) {
    && CacheFill.IsProper(Gets(caching, events, expires), |parts|)
    && (s.file == if d > 0 && Finals(events, |parts|, expires) >= d then Gone
                  else Live(if d > 0 then d - Finals(events, |parts|, expires) else d, expires))
    && (s.file.Live? ==> s.cached == CacheFill.Content(parts, CacheFill.Fill(parts, Gets(caching, events, expires))))
  }

  lemma EventStands(parts: seq<Bytes>, caching: bool, d: int, expires: int, front: seq<Event>, e: Event, s: State)
    requires ChunkSized(parts) && d != 0 && IsProperEvent(e, |parts|, expires) && Stands(parts, caching, d, expires, front, s)
    ensures Stands(parts, caching, d, expires, front + [e], Step(caching, Concat(parts), s, e))
  {
    hide CacheFill.Fill, CacheFill.Content, Fetched, ChunkSized;
    var gets := Gets(caching, front, expires);
    assert (front + [e])[..|front|] == front;
    match e {
      case Lose =>
        CacheFill.Lost(parts, gets);
      case Request(chunk, now) =>
        assert gets + [] == gets;
        LateIsRefused(caching, Concat(parts), s, chunk, now);
        hide Serve;
        if InTime(e, expires) {
          RequestStands(parts, caching, d, expires, front, e, s);
        }
    }
  }

  lemma RequestStands(parts: seq<Bytes>, caching: bool, d: int, expires: int, front: seq<Event>, e: Event, s: State)
    requires ChunkSized(parts) && d != 0 && InTime(e, expires) && IsProperEvent(e, |parts|, expires)
    requires Stands(parts, caching, d, expires, front, s)
    ensures Stands(parts, caching, d, expires, front + [e], Step(caching, Concat(parts), s, e))
  {
    hide CacheFill.Fill, CacheFill.Content, Fetched, ChunkSized;
    var gets, k := Gets(caching, front, expires), Number(e.chunk);
    assert (front + [e])[..|front|] == front;
    FetchesChunk(parts, s.cached, k);
    if caching {
      CacheFill.FillMore(parts, gets, CacheFill.Get(k));
      CacheFill.ContentMore(parts, CacheFill.Fill(parts, gets), k);
    } else {
      assert gets + [] == gets;
    }
  }

  lemma {:induction false} RunStands(parts: seq<Bytes>, caching: bool, d: int, expires: int, events: seq<Event>)
    requires ChunkSized(parts) && d != 0 && Proper(events, |parts|, expires)
    ensures Stands(parts, caching, d, expires, events, After(caching, Concat(parts), State(Live(d, expires), []), events))
  {
    if events == [] {
      assert Gets(caching, events, expires) == [] && CacheFill.Fill(parts, []) == [];
    } else {
      hide Stands;
      var front := events[..|events| - 1];
      RunStands(parts, caching, d, expires, front);
      assert front + [events[|events| - 1]] == events;
      EventStands(parts, caching, d, expires, front, events[|events| - 1],
                  After(caching, Concat(parts), State(Live(d, expires), []), front));
    }
  }

  // ----- Counting

  /** With d downloads the file is gone after the d-th request for the last chunk; before that the
      counter shows what is left, which other chunks and the cache do not change. */
  lemma CountsFinals(parts: seq<Bytes>, caching: bool, d: int, expires: int, events: seq<Event>)
    requires ChunkSized(parts) && d > 0 && Proper(events, |parts|, expires)
    ensures var f := Finals(events, |parts|, expires);
            After(caching, Concat(parts), State(Live(d, expires), []), events).file ==
              if f >= d then Gone else Live(d - f, expires)
  {
    RunStands(parts, caching, d, expires, events);
  }

  /** Every request before the expiration and up to the d-th one for the last chunk is answered, and no
      other. The answer is what the cached file and the storage give after the requests before it. */
  lemma ServedExactly(parts: seq<Bytes>, caching: bool, d: int, expires: int, events: seq<Event>, i: nat)
    requires ChunkSized(parts) && d > 0 && Proper(events, |parts|, expires) && i < |events| && events[i].Request?
    ensures CacheFill.IsProper(Gets(caching, events[..i], expires), |parts|)
    ensures Answer(caching, Concat(parts), State(Live(d, expires), []), events, i) ==
              if InTime(events[i], expires) && Finals(events[..i], |parts|, expires) < d
              then CacheFill.Answer(parts, Gets(caching, events[..i], expires), Number(events[i].chunk))
              else None
  {
    hide Fetched, CacheFill.Fill, CacheFill.Content;
    assert IsProperEvent(events[i], |parts|, expires);
    RunStands(parts, caching, d, expires, events[..i]);
    if InTime(events[i], expires) {
      AnswersAlike(parts, After(caching, Concat(parts), State(Live(d, expires), []), events[..i]),
                   Gets(caching, events[..i], expires), Number(events[i].chunk));
    }
  }

  lemma AnswersAlike(parts: seq<Bytes>, s: State, gets: seq<CacheFill.Event>, k: nat)
    requires ChunkSized(parts) && 1 <= k <= |parts| && CacheFill.IsProper(gets, |parts|)
    requires s.file.Live? ==> s.cached == CacheFill.Content(parts, CacheFill.Fill(parts, gets))
    ensures Fetched(Concat(parts), s.cached, k).Some?
    ensures s.file.Live? ==> CacheFill.Answer(parts, gets, k) == Some(Fetched(Concat(parts), s.cached, k).value.1)
  {
    FetchesChunk(parts, s.cached, k);
  }

  /** How many requests have got the last chunk. */
  function ServedFinals(caching: bool, obj: Bytes, s: State, events: seq<Event>, n: nat): nat
    decreases |events|
  {
    if events == [] then 0
    else
      var k := |events| - 1;
      ServedFinals(caching, obj, s, events[..k], n)
      + if events[k].Request? && Number(events[k].chunk) == n && Answer(caching, obj, s, events, k).Some? then 1 else 0
  }

  /** The last chunk is served exactly d times, or as often as it is requested if that is less. */
  lemma {:induction false} ServedExactlyTimes(parts: seq<Bytes>, caching: bool, d: int, expires: int, events: seq<Event>)
    requires ChunkSized(parts) && d > 0 && Proper(events, |parts|, expires)
    ensures var f := Finals(events, |parts|, expires);
            ServedFinals(caching, Concat(parts), State(Live(d, expires), []), events, |parts|) == if f <= d then f else d
    decreases |events|
  {
    if events == [] {
    } else {
      hide Answer, ChunkSized;
      var k := |events| - 1;
      ServedExactlyTimes(parts, caching, d, expires, events[..k]);
      if events[k].Request? {
        ServedExactly(parts, caching, d, expires, events, k);
        if InTime(events[k], expires) {
          assert IsProperEvent(events[k], |parts|, expires);
          AnswerIsSome(parts, Gets(caching, events[..k], expires), Number(events[k].chunk));
        }
      }
    }
  }

  lemma AnswerIsSome(parts: seq<Bytes>, gets: seq<CacheFill.Event>, k: nat)
    requires ChunkSized(parts) && 1 <= k <= |parts| && CacheFill.IsProper(gets, |parts|)
    ensures CacheFill.Answer(parts, gets, k).Some?
  {
    AnswersAlike(parts, State(Live(1, 0), CacheFill.Content(parts, CacheFill.Fill(parts, gets))), gets, k);
  }

  /** A file without a limit never vanishes by counting, and every request before the expiration is
      answered, and none after it. */
  lemma UnlimitedStays(parts: seq<Bytes>, caching: bool, d: int, expires: int, events: seq<Event>, i: nat)
    requires ChunkSized(parts) && d < 0 && Proper(events, |parts|, expires) && i < |events| && events[i].Request?
    ensures After(caching, Concat(parts), State(Live(d, expires), []), events).file == Live(d, expires)
    ensures CacheFill.IsProper(Gets(caching, events[..i], expires), |parts|)
    ensures Answer(caching, Concat(parts), State(Live(d, expires), []), events, i) ==
              if InTime(events[i], expires)
              then CacheFill.Answer(parts, Gets(caching, events[..i], expires), Number(events[i].chunk)) else None
  {
    hide Fetched, CacheFill.Fill, CacheFill.Content;
    RunStands(parts, caching, d, expires, events);
    RunStands(parts, caching, d, expires, events[..i]);
    assert IsProperEvent(events[i], |parts|, expires);
    if InTime(events[i], expires) {
      AnswersAlike(parts, After(caching, Concat(parts), State(Live(d, expires), []), events[..i]),
                   Gets(caching, events[..i], expires), Number(events[i].chunk));
    }
  }

  // ----- Whose bytes

  /** A request that is answered gets its own chunk, whatever the bytes of the chunks are, if and only
      if the cached file does not count as complete or its chunks have arrived in order. */
  lemma OwnChunkIff(parts: seq<Bytes>, caching: bool, d: int, expires: int, events: seq<Event>)
    requires ChunkSized(parts) && d != 0 && Proper(events, |parts|, expires)
    requires d > 0 ==> Finals(events, |parts|, expires) < d
    ensures CacheFill.IsProper(Gets(caching, events, expires), |parts|)
    ensures var order := CacheFill.Fill(parts, Gets(caching, events, expires));
            (forall b: seq<Bytes>, k: nat {:trigger Next(b, caching, d, expires, events, k)} ::
               CacheFill.SameSizes(parts, b) && 1 <= k <= |parts| ==>
                 Next(b, caching, d, expires, events, k) == Some(b[k - 1]))
            <==> (CacheFill.IsFull(parts, order) ==> order == CacheFill.UpToChunk(|parts|))
  {
    hide Next, CacheFill.Fill, CacheFill.Answer, CacheFill.IsFull;
    RunStands(parts, caching, d, expires, events);
    var gets := Gets(caching, events, expires);
    forall b: seq<Bytes>, k: nat | CacheFill.SameSizes(parts, b) && 1 <= k <= |parts|
      ensures Next(b, caching, d, expires, events, k) == CacheFill.Answer(b, gets, k)
    {
      NextIsAnswer(parts, b, caching, d, expires, events, k);
    }
    CacheFill.OwnBytesIff(parts, gets);
  }

  /** What a request for chunk k gets after these events, before the file expires. */
  function Next(parts: seq<Bytes>, caching: bool, d: int, expires: int, events: seq<Event>, k: nat): Option<Bytes> {
    Serve(caching, Concat(parts), After(caching, Concat(parts), State(Live(d, expires), []), events), k, expires).1
  }

  lemma NextIsAnswer(parts: seq<Bytes>, b: seq<Bytes>, caching: bool, d: int, expires: int, events: seq<Event>, k: nat)
    requires ChunkSized(parts) && CacheFill.SameSizes(parts, b) && 1 <= k <= |parts|
    requires d != 0 && Proper(events, |parts|, expires) && (d > 0 ==> Finals(events, |parts|, expires) < d)
    ensures CacheFill.IsProper(Gets(caching, events, expires), |b|)
    ensures Next(b, caching, d, expires, events, k) == CacheFill.Answer(b, Gets(caching, events, expires), k)
  {
    hide Fetched, CacheFill.Fill, CacheFill.Content;
    CacheFill.SizedAlike(parts, b);
    RunStands(b, caching, d, expires, events);
    AnswersAlike(b, After(caching, Concat(b), State(Live(d, expires), []), events), Gets(caching, events, expires), k);
  }

  /** Two full chunks requested as 2, 1 and then 1 again: the third request gets chunk 2. */
  lemma OutOfOrderServesWrong(parts: seq<Bytes>, d: int, expires: int)
    requires ChunkSized(parts) && |parts| == 2 && |parts[1]| == STORED_SIZE && (d < 0 || d >= 2)
    ensures Next(parts, true, d, expires, [Request(2, expires), Request(1, expires)], 1) == Some(parts[1])
  {
    hide Next, CacheFill.Fill, CacheFill.Answer;
    var events := [Request(2, expires), Request(1, expires)];
    assert events[..1] == [Request(2, expires)] && events[..1][..0] == [];
    assert Gets(true, [Request(2, expires)], expires) == [CacheFill.Get(2)];
    assert Gets(true, events, expires) == [CacheFill.Get(2)] + [CacheFill.Get(1)] == [CacheFill.Get(2), CacheFill.Get(1)];
    assert Finals([Request(2, expires)], 2, expires) == 1;
    NextIsAnswer(parts, parts, true, d, expires, events, 1);
    CacheFill.TwoOneOne(parts);
  }

  /** Without the cache, or with requests that fill it in order, every request gets its own chunk. */
  lemma SteadyRequests(parts: seq<Bytes>, caching: bool, d: int, expires: int, events: seq<Event>, k: nat)
    requires ChunkSized(parts) && d != 0 && Proper(events, |parts|, expires) && (d > 0 ==> Finals(events, |parts|, expires) < d)
    requires 1 <= k <= |parts| && CacheFill.IsProper(Gets(caching, events, expires), |parts|)
    requires !caching || CacheFill.Steady(parts, Gets(caching, events, expires))
    ensures Next(parts, caching, d, expires, events, k) == Some(parts[k - 1])
  {
    hide Next, CacheFill.Fill, CacheFill.Answer, CacheFill.Steady;
    NextIsAnswer(parts, parts, caching, d, expires, events, k);
    if !caching {
      OnlyLosses(parts, events, expires);
    }
    CacheFill.SteadyRunsAgree(parts, Gets(caching, events, expires), k);
  }

  lemma {:induction false} OnlyLosses(parts: seq<Bytes>, events: seq<Event>, expires: int)
    ensures forall i :: 0 <= i < |Gets(false, events, expires)| ==> Gets(false, events, expires)[i].Lose?
    ensures CacheFill.IsProper(Gets(false, events, expires), |parts|) && CacheFill.Steady(parts, Gets(false, events, expires))
  {
    if events == [] {
    } else {
      OnlyLosses(parts, events[..|events| - 1], expires);
    }
  }
}
