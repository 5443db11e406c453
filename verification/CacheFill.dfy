/** One file in the cache over a run of requests, losses and evictions, and exactly when what is
    read from the cache is what the storage holds. */
module CacheFill {
  import opened Constants
  import opened Results
  import opened Multipart
  import opened Uploads
  import opened RoundTrip
  import opened Cache

  /** What happens to one file: a chunk is requested, or its cached copy is lost. */
  datatype Event = Get(chunk: nat) | Lose

  predicate IsOrder(order: seq<nat>, n: nat) {
    forall i :: 0 <= i < |order| ==> 1 <= order[i] <= n
  }

  predicate IsProper(events: seq<Event>, n: nat) {
    forall i :: 0 <= i < |events| && events[i].Get? ==> 1 <= events[i].chunk <= n
  }

  /** The cached file after these chunks have been appended. */
  function Content(parts: seq<Bytes>, order: seq<nat>): Bytes
    requires IsOrder(order, |parts|)
  {
    if order == [] then [] else Content(parts, order[..|order| - 1]) + parts[order[|order| - 1] - 1]
  }

  /** The test of HasFile. */
  predicate IsFull(parts: seq<Bytes>, order: seq<nat>)
    requires IsOrder(order, |parts|)
  {
    |Content(parts, order)| == |Concat(parts)|
  }

  /** The chunks in the cached file, in the order in which they arrived. A request appends its chunk
      unless the file counts as complete. */
  function Fill(parts: seq<Bytes>, events: seq<Event>): (order: seq<nat>)
    requires IsProper(events, |parts|)
    ensures IsOrder(order, |parts|)
  {
    if events == [] then []
    else
      var before := Fill(parts, events[..|events| - 1]);
      match events[|events| - 1]
      case Lose => []
      case Get(k) => if IsFull(parts, before) then before else before + [k]
  }

  /** What a request for chunk k then gets: from the cached file if that counts as complete, and
      from the storage otherwise. */
  function Answer(parts: seq<Bytes>, events: seq<Event>, k: nat): Option<Bytes>
    requires IsProper(events, |parts|)
  {
    AnswerAfter(parts, Fill(parts, events), k)
  }

  function AnswerAfter(parts: seq<Bytes>, order: seq<nat>, k: nat): Option<Bytes>
    requires IsOrder(order, |parts|)
  {
    var (start, end, _) := GetReadBoundaries(k, |Concat(parts)|);
    if IsFull(parts, order) then ReadAt(Content(parts, order), start, end)
    else
      match PartialDownload(Concat(parts), start, end)
      case Ok(data) => Some(data)
      case Err(_) => None
  }

  // ----- Fills in order

  /** The chunks 1 to k. */
  function UpToChunk(k: nat): (order: seq<nat>)
    ensures |order| == k && forall i :: 0 <= i < k ==> order[i] == i + 1
  {
    if k == 0 then [] else UpToChunk(k - 1) + [k]
  }

  lemma {:induction false} ContentInOrder(parts: seq<Bytes>, k: nat)
    requires k <= |parts|
    ensures Content(parts, UpToChunk(k)) == Concat(parts[..k])
  {
    if k == 0 {
    } else {
      ContentInOrder(parts, k - 1);
      assert UpToChunk(k)[..k - 1] == UpToChunk(k - 1);
      assert parts[..k][..k - 1] == parts[..k - 1];
    }
  }

  lemma FullIffAll(parts: seq<Bytes>, k: nat)
    requires ChunkSized(parts) && k <= |parts|
    ensures IsFull(parts, UpToChunk(k)) <==> k == |parts|
  {
    ContentInOrder(parts, k);
    PartAt(parts, |parts| - 1);
    if k == |parts| {
      assert parts[..k] == parts;
    } else {
      PrefixLength(parts[..k]);
    }
  }

  /** A file that holds the first chunks in order answers right, complete or not. */
  lemma InOrderAnswers(parts: seq<Bytes>, j: nat, k: nat)
    requires ChunkSized(parts) && j <= |parts| && 1 <= k <= |parts|
    ensures AnswerAfter(parts, UpToChunk(j), k) == Some(parts[k - 1])
  {
    FullIffAll(parts, j);
    ContentInOrder(parts, j);
    CachedReadIsRangeRead(parts, k);
    if j == |parts| {
      assert parts[..j] == parts;
    }
  }

  lemma NotFullAnswers(parts: seq<Bytes>, order: seq<nat>, k: nat)
    requires ChunkSized(parts) && IsOrder(order, |parts|) && !IsFull(parts, order) && 1 <= k <= |parts|
    ensures AnswerAfter(parts, order, k) == Some(parts[k - 1])
  {
    CachedReadIsRangeRead(parts, k);
  }

  /** Every request that is not answered from the cache is for the next chunk: one writer, in order,
      and after a loss from the beginning. */
  ghost predicate Steady(parts: seq<Bytes>, events: seq<Event>)
    requires IsProper(events, |parts|)
  {
    forall i :: 0 <= i < |events| ==> SteadyAt(parts, events, i)
  }

  predicate SteadyAt(parts: seq<Bytes>, events: seq<Event>, i: nat)
    requires IsProper(events, |parts|) && i < |events|
  {
    var order := Fill(parts, events[..i]);
    events[i].Lose? || IsFull(parts, order) || events[i].chunk == |order| + 1
  }

  lemma {:induction false} SteadyFill(parts: seq<Bytes>, events: seq<Event>)
    requires ChunkSized(parts) && IsProper(events, |parts|) && Steady(parts, events)
    ensures |Fill(parts, events)| <= |parts| && Fill(parts, events) == UpToChunk(|Fill(parts, events)|)
  {
    if events == [] {
    } else {
      var n := |events| - 1;
      var front := events[..n];
      forall i | 0 <= i < n
        ensures SteadyAt(parts, front, i)
      {
        assert SteadyAt(parts, events, i) && front[..i] == events[..i];
      }
      SteadyFill(parts, front);
      assert SteadyAt(parts, events, n);
      FullIffAll(parts, |Fill(parts, front)|);
    }
  }

  /** Over any run of steady fills, reads and losses, the file counts as complete exactly when all
      chunks are in it, and every request gets its own chunk. */
  lemma SteadyRunsAgree(parts: seq<Bytes>, events: seq<Event>, k: nat)
    requires ChunkSized(parts) && IsProper(events, |parts|) && Steady(parts, events) && 1 <= k <= |parts|
    ensures IsFull(parts, Fill(parts, events)) <==> |Fill(parts, events)| == |parts|
    ensures Answer(parts, events, k) == Some(parts[k - 1])
  {
    hide Fill, AnswerAfter;
    SteadyFill(parts, events);
    var j := |Fill(parts, events)|;
    FullIffAll(parts, j);
    InOrderAnswers(parts, j, k);
  }

  // ----- Exactly which orders

  /** The same number of chunks of the same sizes. */
  predicate SameSizes(a: seq<Bytes>, b: seq<Bytes>) {
    |a| == |b| && forall i :: 0 <= i < |a| ==> |a[i]| == |b[i]|
  }

  lemma {:induction false} ContentSize(a: seq<Bytes>, b: seq<Bytes>, order: seq<nat>)
    requires SameSizes(a, b) && IsOrder(order, |a|)
    ensures |Content(a, order)| == |Content(b, order)|
  {
    if order == [] {
    } else {
      ContentSize(a, b, order[..|order| - 1]);
    }
  }

  lemma {:induction false} ConcatSize(a: seq<Bytes>, b: seq<Bytes>)
    requires SameSizes(a, b)
    ensures |Concat(a)| == |Concat(b)|
  {
    if a == [] {
    } else {
      ConcatSize(a[..|a| - 1], b[..|b| - 1]);
    }
  }

  /** What is cached depends on the sizes of the chunks only, not on their bytes. */
  lemma {:induction false} SameFill(a: seq<Bytes>, b: seq<Bytes>, events: seq<Event>)
    requires SameSizes(a, b) && IsProper(events, |a|)
    ensures Fill(a, events) == Fill(b, events)
  {
    if events == [] {
    } else {
      var front := events[..|events| - 1];
      SameFill(a, b, front);
      ContentSize(a, b, Fill(a, front));
      ConcatSize(a, b);
    }
  }

  lemma {:induction false} ContentPrefix(parts: seq<Bytes>, order: seq<nat>, m: nat)
    requires IsOrder(order, |parts|) && m <= |order|
    ensures |Content(parts, order[..m])| <= |Content(parts, order)|
    ensures Content(parts, order)[..|Content(parts, order[..m])|] == Content(parts, order[..m])
    decreases |order|
  {
    if m == |order| {
      assert order[..m] == order;
    } else {
      ContentPrefix(parts, order[..|order| - 1], m);
      assert order[..|order| - 1][..m] == order[..m];
    }
  }

  /** The first chunk that is out of place in a file that has the right size. */
  lemma FirstOutOfPlace(parts: seq<Bytes>, order: seq<nat>) returns (j: nat)
    requires ChunkSized(parts) && IsOrder(order, |parts|) && IsFull(parts, order) && order != UpToChunk(|parts|)
    ensures j < |order| && j < |parts| && order[j] != j + 1 && order[..j] == UpToChunk(j)
  {
    j := 0;
    assert order[..0] == UpToChunk(0);
    while j < |order| && j < |parts| && order[j] == j + 1
      invariant j <= |order| && j <= |parts| && order[..j] == UpToChunk(j)
    {
      assert order[..j + 1] == order[..j] + [order[j]];
      j := j + 1;
    }
    RunsOut(parts, order, j);
  }

  /** A file of the right size is not a proper part of the chunks in order, nor more than these. */
  lemma RunsOut(parts: seq<Bytes>, order: seq<nat>, j: nat)
    requires ChunkSized(parts) && IsOrder(order, |parts|) && IsFull(parts, order) && order != UpToChunk(|parts|)
    requires j <= |order| && j <= |parts| && order[..j] == UpToChunk(j)
    ensures j < |order| && j < |parts|
  {
    hide Content, Concat, ChunkSized;
    assert order[..|order|] == order;
    if j < |order| {
      MoreIsLonger(parts, order, j);
    }
    FullIffAll(parts, j);
  }

  lemma MoreIsLonger(parts: seq<Bytes>, order: seq<nat>, j: nat)
    requires ChunkSized(parts) && IsOrder(order, |parts|) && j < |order|
    ensures |Content(parts, order)| > |Content(parts, order[..j])|
  {
    hide Concat;
    ContentPrefix(parts, order, j + 1);
    assert order[..j + 1][..j] == order[..j];
    assert |parts[order[j] - 1]| > 0;
  }

  /** Chunks of the same sizes, all zeros but for the first byte of chunk j + 1. */
  function Marked(parts: seq<Bytes>, j: nat): (r: seq<Bytes>)
    ensures SameSizes(parts, r)
  {
    seq(|parts|, i requires 0 <= i < |parts| => seq(|parts[i]|, b => if i == j && b == 0 then 1 else 0))
  }

  lemma MarkedIsSized(parts: seq<Bytes>, j: nat)
    requires ChunkSized(parts) && j < |parts|
    ensures ChunkSized(Marked(parts, j)) && |Marked(parts, j)[j]| > 0
    ensures forall i :: 0 <= i < |parts| ==> |Marked(parts, j)[i]| > 0 && Marked(parts, j)[i][0] == if i == j then 1 else 0
  {
  }

  /** With a chunk out of place the wrong first byte is read for some bytes of the chunks. */
  lemma OutOfPlaceIsWrong(parts: seq<Bytes>, order: seq<nat>, j: nat)
    requires ChunkSized(parts) && IsOrder(order, |parts|) && IsFull(parts, order)
    requires j < |order| && j < |parts| && order[j] != j + 1 && order[..j] == UpToChunk(j)
    ensures var b := Marked(parts, j);
            IsOrder(order, |b|) && AnswerAfter(b, order, j + 1) != Some(b[j])
  {
    var b := Marked(parts, j);
    MarkedIsSized(parts, j);
    ContentSize(parts, b, order);
    ConcatSize(parts, b);
    hide Marked, Content, Concat, AnswerAfter;
    ReadsWrong(b, order, j);
  }

  lemma ReadsWrong(b: seq<Bytes>, order: seq<nat>, j: nat)
    requires ChunkSized(b) && IsOrder(order, |b|) && IsFull(b, order)
    requires j < |order| && j < |b| && order[..j] == UpToChunk(j)
    requires |b[order[j] - 1]| > 0 && |b[j]| > 0 && b[order[j] - 1][0] != b[j][0]
    ensures AnswerAfter(b, order, j + 1) != Some(b[j])
  {
    hide GetReadBoundaries, Content, Concat, ReadAt, ChunkSized, UpToChunk;
    WrongByte(b, order, j);
    ChunkBoundaries(b, j + 1);
    ReadBegins(Content(b, order), j * STORED_SIZE, j * STORED_SIZE + |b[j]| - 1);
  }

  lemma ReadBegins(data: Bytes, start: nat, end: int)
    requires start <= end
    ensures ReadAt(data, start, end).Some? ==>
              |ReadAt(data, start, end).value| > 0 && start < |data| && ReadAt(data, start, end).value[0] == data[start]
  {
  }

  /** The chunks before the first one that is out of place. */
  lemma StartOfPart(b: seq<Bytes>, order: seq<nat>, j: nat)
    requires ChunkSized(b) && IsOrder(order, |b|) && j < |order| && j < |b| && order[..j] == UpToChunk(j)
    ensures IsOrder(order[..j], |b|) && IsOrder(order[..j + 1], |b|) && 1 <= order[j] <= |b|
    ensures |Content(b, order[..j])| == j * STORED_SIZE
    ensures Content(b, order[..j + 1]) == Content(b, order[..j]) + b[order[j] - 1]
  {
    PrefixLength(b[..j]);
    ContentInOrder(b, j);
    hide Content, Concat, ChunkSized, UpToChunk;
    ContentMore(b, order[..j], order[j]);
    assert order[..j + 1] == order[..j] + [order[j]];
  }

  /** Where chunk j + 1 should begin, the chunk out of place begins. */
  lemma WrongByte(b: seq<Bytes>, order: seq<nat>, j: nat)
    requires ChunkSized(b) && IsOrder(order, |b|) && j < |order| && j < |b| && order[..j] == UpToChunk(j)
    requires |b[order[j] - 1]| > 0
    ensures j * STORED_SIZE < |Content(b, order)| && Content(b, order)[j * STORED_SIZE] == b[order[j] - 1][0]
  {
    hide Content, Concat, ChunkSized, UpToChunk, IsOrder;
    StartOfPart(b, order, j);
    ContentPrefix(b, order, j + 1);
    FirstAfter(Content(b, order), Content(b, order[..j]), b[order[j] - 1]);
  }

  lemma FirstAfter(data: Bytes, front: Bytes, next: Bytes)
    requires |front + next| <= |data| && data[..|front + next|] == front + next && next != []
    ensures |front| < |data| && data[|front|] == next[0]
  {
    assert data[..|front + next|][|front|] == (front + next)[|front|];
  }

  /** Own bytes for everybody, whatever the bytes of the chunks are. */
  ghost predicate AlwaysOwn(parts: seq<Bytes>, events: seq<Event>)
    requires IsProper(events, |parts|)
  {
    forall b: seq<Bytes>, k: nat {:trigger Answer(b, events, k)} ::
      SameSizes(parts, b) && 1 <= k <= |parts| ==> Answer(b, events, k) == Some(b[k - 1])
  }

  /** After any requests and losses, every request gets its own bytes, whatever the bytes are, if and
      only if the file does not count as complete or its chunks have arrived in order. */
  lemma OwnBytesIff(parts: seq<Bytes>, events: seq<Event>)
    requires ChunkSized(parts) && IsProper(events, |parts|)
    ensures AlwaysOwn(parts, events)
            <==> (IsFull(parts, Fill(parts, events)) ==> Fill(parts, events) == UpToChunk(|parts|))
  {
    hide AnswerAfter, Fill, ChunkSized;
    var order := Fill(parts, events);
    if IsFull(parts, order) && order != UpToChunk(|parts|) {
      var j := FirstOutOfPlace(parts, order);
      var b := Marked(parts, j);
      OutOfPlaceIsWrong(parts, order, j);
      SameFill(parts, b, events);
      assert Answer(b, events, j + 1) != Some(b[j]);
    } else {
      forall b: seq<Bytes>, k: nat | SameSizes(parts, b) && 1 <= k <= |parts|
        ensures Answer(b, events, k) == Some(b[k - 1])
      {
        SizedAlike(parts, b);
        SameFill(parts, b, events);
        ContentSize(parts, b, order);
        ConcatSize(parts, b);
        if IsFull(parts, order) {
          InOrderAnswers(b, |b|, k);
        } else {
          NotFullAnswers(b, order, k);
        }
      }
    }
  }

  lemma SizedAlike(a: seq<Bytes>, b: seq<Bytes>)
    requires ChunkSized(a) && SameSizes(a, b)
    ensures ChunkSized(b)
  {
  }

  /** Two chunks, requested as 2, 1 and then 1 again, as concurrent workers may do: the third answer
      is the beginning of the second chunk followed by the first, and not chunk 1. */
  lemma TwoOneOne(parts: seq<Bytes>)
    requires ChunkSized(parts) && |parts| == 2 && |parts[1]| == STORED_SIZE
    ensures var events := [Get(2), Get(1)];
            && Fill(parts, events) == [2, 1] && IsFull(parts, [2, 1])
            && Answer(parts, events, 1) == Some(parts[1])
  {
    var events := [Get(2), Get(1)];
    TwoSwapped(parts);
    assert events[..1] == [Get(2)] && [Get(2)][..0] == [];
    hide Content, Concat;
    assert Fill(parts, []) == [];
    assert Fill(parts, [Get(2)]) == [2];
    assert Fill(parts, events) == [2, 1];
    hide Fill;
    assert Content(parts, [2, 1])[..STORED_SIZE] == parts[1];
  }

  lemma TwoSwapped(parts: seq<Bytes>)
    requires ChunkSized(parts) && |parts| == 2
    ensures Content(parts, []) == [] && Content(parts, [2]) == parts[1] && Content(parts, [2, 1]) == parts[1] + parts[0]
    ensures Concat(parts) == parts[0] + parts[1] && |parts[0]| > 0
  {
    assert [2, 1][..1] == [2] && [2][..0] == [] && parts[..1][..0] == [];
    assert Content(parts, [2]) == [] + parts[1] == parts[1];
    assert Content(parts, [2, 1]) == parts[1] + parts[0];
    assert Concat(parts[..1]) == [] + parts[0] == parts[0];
  }

  // ----- In the directory

  /** The directory after requests for any files, with the evictions that they cause. */
  function DirRun(start: Dir, events: seq<DirEvent>): Dir {
    if events == [] then start else DirAfter(DirRun(start, events[..|events| - 1]), events[|events| - 1])
  }

  /** What an event means for one file. */
  function Seen(dir: Dir, id: string, e: DirEvent): seq<Event> {
    match e
    case Remove(x) => if x == id then [Lose] else []
    case Serve(x, obj, chunk, evicted, _) =>
      (if !HasFile(dir, x, |obj|) && id in evicted then [Lose] else []) + if x == id then [Get(chunk)] else []
  }

  function Project(start: Dir, id: string, events: seq<DirEvent>): seq<Event> {
    if events == [] then []
    else
      var front := events[..|events| - 1];
      Project(start, id, front) + Seen(DirRun(start, front), id, events[|events| - 1])
  }

  /** All requests for this file are for its chunks. */
  predicate OnFile(id: string, parts: seq<Bytes>, events: seq<DirEvent>) {
    forall i :: 0 <= i < |events| ==> IsOnFile(id, parts, events[i])
  }

  predicate IsOnFile(id: string, parts: seq<Bytes>, e: DirEvent) {
    e.Serve? && e.id == id ==> e.obj == Concat(parts) && 1 <= e.chunk <= |parts|
  }

  function DataOf(dir: Dir, id: string): Bytes {
    if id in dir then dir[id].data else []
  }

  lemma FillMore(parts: seq<Bytes>, events: seq<Event>, e: Event)
    requires IsProper(events, |parts|) && (e.Get? ==> 1 <= e.chunk <= |parts|)
    ensures IsProper(events + [e], |parts|)
    ensures Fill(parts, events + [e]) ==
              match e
              case Lose => []
              case Get(k) => if IsFull(parts, Fill(parts, events)) then Fill(parts, events) else Fill(parts, events) + [k]
  {
    assert (events + [e])[..|events|] == events;
  }

  lemma ContentMore(parts: seq<Bytes>, order: seq<nat>, k: nat)
    requires IsOrder(order, |parts|) && 1 <= k <= |parts|
    ensures Content(parts, order + [k]) == Content(parts, order) + parts[k - 1]
  {
    assert (order + [k])[..|order|] == order;
  }

  lemma OtherServed(dir: Dir, id: string, e: DirEvent)
    requires e.Serve? && e.id != id
    ensures DataOf(DirAfter(dir, e), id) ==
              if !HasFile(dir, e.id, |e.obj|) && id in e.evicted then [] else DataOf(dir, id)
  {
    hide DownloadFile;
  }

  lemma OwnServed(dir: Dir, id: string, parts: seq<Bytes>, e: DirEvent)
    requires ChunkSized(parts) && e.Serve? && e.id == id && IsOnFile(id, parts, e)
    ensures DataOf(DirAfter(dir, e), id) ==
              if HasFile(dir, id, |Concat(parts)|) then DataOf(dir, id)
              else (if id in e.evicted then [] else DataOf(dir, id)) + parts[e.chunk - 1]
  {
    hide DownloadFile, ChunkSized, Concat;
    ReadIsChunk(parts, e.chunk);
  }

  /** One event in the directory is what it means for the file. */
  lemma OneEvent(dir: Dir, id: string, parts: seq<Bytes>, seen: seq<Event>, e: DirEvent)
    requires ChunkSized(parts) && id != "" && IsOnFile(id, parts, e) && IsProper(seen, |parts|)
    requires DataOf(dir, id) == Content(parts, Fill(parts, seen))
    ensures IsProper(seen + Seen(dir, id, e), |parts|)
    ensures DataOf(DirAfter(dir, e), id) == Content(parts, Fill(parts, seen + Seen(dir, id, e)))
  {
    hide Fill, Content, Concat, ChunkSized;
    Lost(parts, seen);
    assert seen + [] == seen;
    if e.Serve? {
      if e.id == id {
        OwnEvent(dir, id, parts, seen, e);
      } else {
        OtherServed(dir, id, e);
        hide DirAfter;
        assert Seen(dir, id, e) == if !HasFile(dir, e.id, |e.obj|) && id in e.evicted then [Lose] else [];
      }
    }
  }

  lemma OwnEvent(dir: Dir, id: string, parts: seq<Bytes>, seen: seq<Event>, e: DirEvent)
    requires ChunkSized(parts) && id != "" && IsOnFile(id, parts, e) && IsProper(seen, |parts|)
    requires e.Serve? && e.id == id && DataOf(dir, id) == Content(parts, Fill(parts, seen))
    ensures IsProper(seen + Seen(dir, id, e), |parts|)
    ensures DataOf(DirAfter(dir, e), id) == Content(parts, Fill(parts, seen + Seen(dir, id, e)))
  {
    hide Fill, Content, Concat, ChunkSized;
    OwnServed(dir, id, parts, e);
    hide DirAfter;
    FullOnlyNonEmpty(parts, seen);
    assert HasFile(dir, id, |Concat(parts)|) <==> IsFull(parts, Fill(parts, seen));
    Lost(parts, seen);
    var lost := !HasFile(dir, id, |e.obj|) && id in e.evicted;
    var mid := if lost then seen + [Lose] else seen;
    FullOnlyNonEmpty(parts, mid);
    FillMore(parts, mid, Get(e.chunk));
    ContentMore(parts, Fill(parts, mid), e.chunk);
    assert seen + Seen(dir, id, e) == mid + [Get(e.chunk)];
  }

  lemma FullOnlyNonEmpty(parts: seq<Bytes>, events: seq<Event>)
    requires ChunkSized(parts) && IsProper(events, |parts|)
    ensures IsFull(parts, Fill(parts, events)) <==> |Content(parts, Fill(parts, events))| == |Concat(parts)| > 0
  {
    PartAt(parts, |parts| - 1);
  }

  lemma Lost(parts: seq<Bytes>, events: seq<Event>)
    requires IsProper(events, |parts|)
    ensures IsProper(events + [Lose], |parts|) && Content(parts, Fill(parts, events + [Lose])) == []
  {
    FillMore(parts, events, Lose);
  }

  /** Whatever happens to other files, the cached bytes are those of the file's own run. */
  lemma {:induction false} DirFollows(start: Dir, id: string, parts: seq<Bytes>, events: seq<DirEvent>)
    requires ChunkSized(parts) && id != "" && id !in start && OnFile(id, parts, events)
    ensures IsProper(Project(start, id, events), |parts|)
    ensures DataOf(DirRun(start, events), id) == Content(parts, Fill(parts, Project(start, id, events)))
  {
    if events == [] {
      assert Project(start, id, events) == [];
    } else {
      var front := events[..|events| - 1];
      DirFollows(start, id, parts, front);
      assert IsOnFile(id, parts, events[|events| - 1]);
      OneEvent(DirRun(start, front), id, parts, Project(start, id, front), events[|events| - 1]);
    }
  }

  lemma ServedIsAnswer(start: Dir, id: string, parts: seq<Bytes>, events: seq<DirEvent>, k: nat)
    requires ChunkSized(parts) && id != "" && id !in start && OnFile(id, parts, events)
    ensures IsProper(Project(start, id, events), |parts|)
    ensures Served(DirRun(start, events), id, Concat(parts), k) == Answer(parts, Project(start, id, events), k)
    ensures HasFile(DirRun(start, events), id, |Concat(parts)|) <==> IsFull(parts, Fill(parts, Project(start, id, events)))
  {
    hide Fill, Content, DirRun, Project;
    DirFollows(start, id, parts, events);
    FullOnlyNonEmpty(parts, Project(start, id, events));
  }

  /** Over any run of requests for any files with their evictions, in which the fills of a file are
      in order and start again after a loss: the file is in the cache exactly when all its chunks
      are, and every request for it gets its own chunk, from the cache or from the storage. */
  lemma CachedReadsAgree(start: Dir, id: string, parts: seq<Bytes>, events: seq<DirEvent>, k: nat)
    requires ChunkSized(parts) && id != "" && id !in start && OnFile(id, parts, events) && 1 <= k <= |parts|
    requires IsProper(Project(start, id, events), |parts|) && Steady(parts, Project(start, id, events))
    ensures Served(DirRun(start, events), id, Concat(parts), k) == Some(parts[k - 1])
    ensures HasFile(DirRun(start, events), id, |Concat(parts)|) <==> |Fill(parts, Project(start, id, events))| == |parts|
  {
    ServedIsAnswer(start, id, parts, events, k);
    SteadyRunsAgree(parts, Project(start, id, events), k);
  }
}
