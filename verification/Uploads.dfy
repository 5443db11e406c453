/** Concurrent chunk requests: UploadMultiChunk of the two storage backends. */
module Uploads {
  import opened Results
  import opened Multipart

  datatype Backend = S3 | B2

  /** A file of several chunks: the encrypted chunks and the storage's checksum of a part. */
  datatype Config = Config(backend: Backend, data: seq<Bytes>, digest: Bytes -> string)

  /** Where the request for one chunk stands. S3 stores the part and then records its checksum,
      B2 records the checksum first. `answer` is what the recording returned. */
  datatype Phase = Idle | Stored | Recorded(answer: seq<string>) | RecordedAndStored(answer: seq<string>) | Done

  /** A call of FinishLargeUpload: with which checksums, over which parts. */
  datatype Final = Final(sums: seq<string>, parts: map<nat, Bytes>)

  /** Requests by chunk number, from 1; `last` is the chunk recorded last, 0 before the first. */
  datatype Upload = Upload(row: Slots, parts: map<nat, Bytes>, phases: map<nat, Phase>, last: nat, finals: seq<Final>)

  function Chunks(cfg: Config): set<nat> {
    UpTo(|cfg.data|)
  }

  predicate ValidConfig(cfg: Config) {
    |cfg.data| >= 2 && forall k :: 0 <= k < |cfg.data| ==> cfg.digest(cfg.data[k]) != PLACEHOLDER
  }

  function AllParts(cfg: Config): (parts: map<nat, Bytes>)
    ensures parts.Keys == Chunks(cfg)
  {
    map i | i in Chunks(cfg) :: cfg.data[i - 1]
  }

  function AllSums(cfg: Config): seq<string> {
    seq(|cfg.data|, k requires 0 <= k < |cfg.data| => cfg.digest(cfg.data[k]))
  }

  function Start(cfg: Config): Upload {
    Upload(NEW_SLOTS, map[], map i | i in Chunks(cfg) :: Idle, 0, [])
  }

  /** UpdateChecksums for chunk i. */
  function Record(cfg: Config, s: Upload, i: nat): Upload
    requires i in Chunks(cfg)
  {
    var row := Assign(s.row, i, cfg.digest(AllParts(cfg)[i]));
    s.(row := row, phases := s.phases[i := Recorded(RemoveNulls(row))], last := i)
  }

  /** The part of chunk i goes to the storage. */
  function Store(cfg: Config, s: Upload, i: nat, p: Phase): Upload
    requires i in Chunks(cfg)
  {
    s.(parts := s.parts[i := AllParts(cfg)[i]], phases := s.phases[i := p])
  }

  /** The request decides whether to finish the upload. */
  function Finish(cfg: Config, s: Upload, i: nat, answer: seq<string>): Upload {
    s.(phases := s.phases[i := Done],
       finals := s.finals + if IsComplete(answer, |cfg.data|) then [Final(answer, s.parts)] else [])
  }

  predicate OthersDone(s: Upload, i: nat) {
    forall j :: j in s.phases && j != i ==> s.phases[j].Done?
  }

  /** The next action of the request for chunk i, if it has one. With `ordered` the client sends
      the final chunk only after the answers to all others, as UploadData does. */
  function Next(cfg: Config, ordered: bool, s: Upload, i: nat): Upload {
    if i !in Chunks(cfg) || i !in s.phases then s
    else
      match s.phases[i]
      case Idle =>
        if ordered && i == |cfg.data| && !OthersDone(s, i) then s
        else if cfg.backend.S3? then Store(cfg, s, i, Stored)
        else Record(cfg, s, i)
      case Stored => Record(cfg, s, i)
      case Recorded(answer) =>
        if cfg.backend.S3? then Finish(cfg, s, i, answer)
        else Store(cfg, s, i, RecordedAndStored(answer))
      case RecordedAndStored(answer) => Finish(cfg, s, i, answer)
      case Done => s
  }

  /** An interleaving: which request acts at each point in time. */
  function Run(cfg: Config, ordered: bool, moves: seq<nat>): Upload {
    if moves == [] then Start(cfg)
    else Next(cfg, ordered, Run(cfg, ordered, moves[..|moves| - 1]), moves[|moves| - 1])
  }

  // ----- The invariant of all interleavings

  predicate HasRecorded(p: Phase) {
    p.Recorded? || p.RecordedAndStored? || p.Done?
  }

  predicate HasStored(backend: Backend, p: Phase) {
    p.Stored? || p.RecordedAndStored? || p.Done? || (backend.S3? && p.Recorded?)
  }

  ghost function RecordedChunks(s: Upload): set<nat> {
    set i | i in s.phases && HasRecorded(s.phases[i])
  }

  ghost function Sums(cfg: Config, chunks: set<nat>): (sums: map<nat, string>)
    requires chunks <= Chunks(cfg)
    ensures sums.Keys == chunks
  {
    map i | i in chunks :: cfg.digest(AllParts(cfg)[i])
  }

  /** The answer that a request holds and has not acted on yet. */
  predicate HasAnswer(p: Phase) {
    p.Recorded? || p.RecordedAndStored?
  }

  /** Everything has been recorded, and chunk i came last. */
  ghost predicate LastOfAll(cfg: Config, s: Upload, i: nat) {
    RecordedChunks(s) == Chunks(cfg) && s.last == i
  }

  ghost predicate ArrayInv(cfg: Config, s: Upload) {
    s.phases.Keys == Chunks(cfg) && Records(s.row, Sums(cfg, RecordedChunks(s)))
  }

  /** An answer is complete only for the request that recorded last. */
  ghost predicate AnswerOk(cfg: Config, s: Upload, i: nat, r: seq<string>) {
    && (IsComplete(r, |cfg.data|) <==> LastOfAll(cfg, s, i))
    && (LastOfAll(cfg, s, i) ==> r == AllSums(cfg))
  }

  ghost predicate AnswerInv(cfg: Config, s: Upload) {
    forall i :: i in s.phases && HasAnswer(s.phases[i]) ==> AnswerOk(cfg, s, i, s.phases[i].answer)
  }

  /** The parts in storage are those of the requests that have stored theirs. */
  ghost predicate PartsInv(cfg: Config, s: Upload) {
    && s.phases.Keys == Chunks(cfg) && s.parts.Keys <= Chunks(cfg)
    && forall i :: i in Chunks(cfg) ==>
         && (i in s.parts <==> HasStored(cfg.backend, s.phases[i]))
         && (i in s.parts ==> s.parts[i] == AllParts(cfg)[i])
  }

  /** There is a final call exactly if the request that recorded last has decided. */
  ghost predicate FinalInv(cfg: Config, ordered: bool, s: Upload) {
    && |s.finals| <= 1
    && (s.finals != [] <==> LastOfAll(cfg, s, s.last) && s.last in s.phases && s.phases[s.last].Done?)
    && (s.finals != [] ==>
          && s.finals[0].sums == AllSums(cfg)
          && (cfg.backend.S3? || ordered ==> s.finals[0].parts == AllParts(cfg)))
    && (RecordedChunks(s) != {} ==> s.last in RecordedChunks(s))
  }

  /** The final chunk starts after all others are done, so it is recorded last. */
  ghost predicate OrderInv(cfg: Config, ordered: bool, s: Upload) {
    ordered && |cfg.data| in s.phases && !s.phases[|cfg.data|].Idle? ==>
      OthersDone(s, |cfg.data|) && (HasRecorded(s.phases[|cfg.data|]) ==> s.last == |cfg.data|)
  }

  /** Stored is a phase of S3 only, RecordedAndStored one of B2 only. */
  ghost predicate BackendInv(cfg: Config, s: Upload) {
    forall i :: i in s.phases ==>
                  && (s.phases[i].Stored? ==> cfg.backend.S3?)
                  && (s.phases[i].RecordedAndStored? ==> cfg.backend.B2?)
  }

  ghost predicate Inv(cfg: Config, ordered: bool, s: Upload) {
    && ArrayInv(cfg, s) && AnswerInv(cfg, s) && PartsInv(cfg, s)
    && FinalInv(cfg, ordered, s) && OrderInv(cfg, ordered, s) && BackendInv(cfg, s)
  }

  lemma InvAtStart(cfg: Config, ordered: bool)
    requires ValidConfig(cfg)
    ensures Inv(cfg, ordered, Start(cfg))
  {
  }

  // ----- Recording

  lemma RecordedGrows(cfg: Config, s: Upload, i: nat)
    requires s.phases.Keys == Chunks(cfg) && i in Chunks(cfg) && !HasRecorded(s.phases[i])
    ensures RecordedChunks(Record(cfg, s, i)) == RecordedChunks(s) + {i}
    ensures RecordedChunks(s) != Chunks(cfg)
  {
  }

  lemma SumsGrow(cfg: Config, chunks: set<nat>, i: nat)
    requires chunks <= Chunks(cfg) && i in Chunks(cfg)
    ensures Sums(cfg, chunks + {i}) == Sums(cfg, chunks)[i := cfg.digest(AllParts(cfg)[i])]
  {
  }

  lemma RecordArray(cfg: Config, s: Upload, i: nat)
    requires ArrayInv(cfg, s) && i in Chunks(cfg) && !HasRecorded(s.phases[i])
    ensures ArrayInv(cfg, Record(cfg, s, i))
  {
    hide Records, Assign, RemoveNulls;
    var sums, v := Sums(cfg, RecordedChunks(s)), cfg.digest(AllParts(cfg)[i]);
    RecordedGrows(cfg, s, i);
    SumsGrow(cfg, RecordedChunks(s), i);
    hide Sums, AllParts;
    RecordsAssign(s.row, sums, i, v);
  }

  lemma RecordAnswers(cfg: Config, s: Upload, i: nat)
    requires ValidConfig(cfg) && ArrayInv(cfg, s) && AnswerInv(cfg, s) && i in Chunks(cfg) && !HasRecorded(s.phases[i])
    ensures AnswerInv(cfg, Record(cfg, s, i))
  {
    var s' := Record(cfg, s, i);
    RecordArray(cfg, s, i);
    RecordedGrows(cfg, s, i);
    NewAnswer(cfg, s', i);
    forall j | j in s'.phases && HasAnswer(s'.phases[j])
      ensures AnswerOk(cfg, s', j, s'.phases[j].answer)
    {
      if j != i {
        assert AnswerOk(cfg, s, j, s.phases[j].answer);
      }
    }
  }

  lemma NewAnswer(cfg: Config, s: Upload, i: nat)
    requires ValidConfig(cfg) && ArrayInv(cfg, s) && s.last == i
    ensures AnswerOk(cfg, s, i, RemoveNulls(s.row))
  {
    hide RemoveNulls, Records, IsComplete;
    var done := RecordedChunks(s);
    assert done <= Chunks(cfg);
    hide RecordedChunks;
    CompleteIffAllRecorded(s.row, Sums(cfg, done), |cfg.data|);
    SumsOfAll(cfg, Sums(cfg, Chunks(cfg)));
  }

  lemma SumsOfAll(cfg: Config, sums: map<nat, string>)
    requires sums == Sums(cfg, Chunks(cfg))
    ensures seq(|cfg.data|, k requires 0 <= k < |cfg.data| => sums[k + 1]) == AllSums(cfg)
  {
    forall k | 0 <= k < |cfg.data|
      ensures sums[k + 1] == AllSums(cfg)[k]
    {
      assert k + 1 in Chunks(cfg) && AllParts(cfg)[k + 1] == cfg.data[k];
    }
  }

  /** When the request for chunk i may record. */
  predicate MayRecord(cfg: Config, ordered: bool, s: Upload, i: nat) {
    && i in Chunks(cfg) && i in s.phases
    && (if cfg.backend.S3? then s.phases[i].Stored? else s.phases[i].Idle?)
    && (ordered && i == |cfg.data| ==> OthersDone(s, i))
  }

  lemma RecordParts(cfg: Config, ordered: bool, s: Upload, i: nat)
    requires PartsInv(cfg, s) && MayRecord(cfg, ordered, s, i)
    ensures PartsInv(cfg, Record(cfg, s, i)) && (BackendInv(cfg, s) ==> BackendInv(cfg, Record(cfg, s, i)))
  {
    hide AllParts, Assign, RemoveNulls, OthersDone;
  }

  lemma RecordFinal(cfg: Config, ordered: bool, s: Upload, i: nat)
    requires ArrayInv(cfg, s) && FinalInv(cfg, ordered, s) && MayRecord(cfg, ordered, s, i)
    ensures FinalInv(cfg, ordered, Record(cfg, s, i))
  {
    RecordedGrows(cfg, s, i);
    hide AllParts, AllSums, Assign, RemoveNulls, Records, RecordedChunks, OthersDone;
  }

  lemma RecordOrder(cfg: Config, ordered: bool, s: Upload, i: nat)
    requires s.phases.Keys == Chunks(cfg) && OrderInv(cfg, ordered, s) && MayRecord(cfg, ordered, s, i)
    ensures OrderInv(cfg, ordered, Record(cfg, s, i))
  {
    hide AllParts, Assign, RemoveNulls;
  }

  /** Recording one more chunk. */
  lemma RecordKeeps(cfg: Config, ordered: bool, s: Upload, i: nat)
    requires ValidConfig(cfg) && Inv(cfg, ordered, s) && MayRecord(cfg, ordered, s, i)
    ensures Inv(cfg, ordered, Record(cfg, s, i))
  {
    RecordArray(cfg, s, i);
    RecordAnswers(cfg, s, i);
    RecordParts(cfg, ordered, s, i);
    RecordFinal(cfg, ordered, s, i);
    RecordOrder(cfg, ordered, s, i);
    hide ArrayInv, AnswerInv, PartsInv, FinalInv, OrderInv, BackendInv, Record;
  }

  // ----- Storing and finishing

  lemma AnswersStill(cfg: Config, s: Upload, s': Upload, i: nat)
    requires AnswerInv(cfg, s) && s'.phases.Keys == s.phases.Keys && i in s.phases
    requires RecordedChunks(s') == RecordedChunks(s) && s'.last == s.last
    requires forall j :: j in s.phases && j != i ==> s'.phases[j] == s.phases[j]
    requires HasAnswer(s'.phases[i]) ==> HasAnswer(s.phases[i]) && s'.phases[i].answer == s.phases[i].answer
    ensures AnswerInv(cfg, s')
  {
  }

  /** When the request for chunk i may store its part, and the phase that follows. */
  predicate MayStore(cfg: Config, ordered: bool, s: Upload, i: nat, p: Phase) {
    && i in Chunks(cfg) && i in s.phases
    && (if cfg.backend.S3? then s.phases[i].Idle? && p == Stored
        else s.phases[i].Recorded? && p == RecordedAndStored(s.phases[i].answer))
    && (ordered && i == |cfg.data| ==> OthersDone(s, i))
  }

  lemma StoreParts(cfg: Config, ordered: bool, s: Upload, i: nat, p: Phase)
    requires PartsInv(cfg, s) && MayStore(cfg, ordered, s, i, p)
    ensures PartsInv(cfg, Store(cfg, s, i, p))
  {
    hide AllParts, OthersDone;
  }

  lemma StoreBackend(cfg: Config, ordered: bool, s: Upload, i: nat, p: Phase)
    requires BackendInv(cfg, s) && MayStore(cfg, ordered, s, i, p)
    ensures BackendInv(cfg, Store(cfg, s, i, p))
  {
    hide AllParts, OthersDone;
  }

  lemma StoreRecorded(cfg: Config, ordered: bool, s: Upload, i: nat, p: Phase)
    requires MayStore(cfg, ordered, s, i, p)
    ensures RecordedChunks(Store(cfg, s, i, p)) == RecordedChunks(s)
  {
  }

  lemma StoreFinal(cfg: Config, ordered: bool, s: Upload, i: nat, p: Phase)
    requires FinalInv(cfg, ordered, s) && MayStore(cfg, ordered, s, i, p)
    ensures FinalInv(cfg, ordered, Store(cfg, s, i, p))
  {
    StoreRecorded(cfg, ordered, s, i, p);
    hide AllParts, AllSums, RecordedChunks, OthersDone;
  }

  lemma StoreOrder(cfg: Config, ordered: bool, s: Upload, i: nat, p: Phase)
    requires OrderInv(cfg, ordered, s) && MayStore(cfg, ordered, s, i, p)
    ensures OrderInv(cfg, ordered, Store(cfg, s, i, p))
  {
    hide AllParts;
  }

  lemma StoreAnswers(cfg: Config, ordered: bool, s: Upload, i: nat, p: Phase)
    requires AnswerInv(cfg, s) && s.phases.Keys == Chunks(cfg) && MayStore(cfg, ordered, s, i, p)
    ensures AnswerInv(cfg, Store(cfg, s, i, p))
  {
    StoreRecorded(cfg, ordered, s, i, p);
    hide RecordedChunks, AllParts;
    AnswersStill(cfg, s, Store(cfg, s, i, p), i);
  }

  /** Storing a part: before recording in S3, after it in B2. */
  lemma StoreKeeps(cfg: Config, ordered: bool, s: Upload, i: nat, p: Phase)
    requires Inv(cfg, ordered, s) && MayStore(cfg, ordered, s, i, p)
    ensures Inv(cfg, ordered, Store(cfg, s, i, p))
  {
    StoreRecorded(cfg, ordered, s, i, p);
    StoreAnswers(cfg, ordered, s, i, p);
    StoreParts(cfg, ordered, s, i, p);
    StoreBackend(cfg, ordered, s, i, p);
    StoreFinal(cfg, ordered, s, i, p);
    StoreOrder(cfg, ordered, s, i, p);
    hide AnswerInv, PartsInv, FinalInv, OrderInv, BackendInv, Records, RecordedChunks;
  }

  /** When the last recorder decides, every part is stored: with S3 always, because a part is
      stored before it is recorded; with B2 if the final chunk is sent last. */
  lemma LastHasAllParts(cfg: Config, ordered: bool, s: Upload, i: nat)
    requires Inv(cfg, ordered, s) && |cfg.data| >= 2 && i in Chunks(cfg) && LastOfAll(cfg, s, i)
    requires HasStored(cfg.backend, s.phases[i]) && (cfg.backend.S3? || ordered)
    ensures s.parts == AllParts(cfg)
  {
  }

  lemma FinishRecorded(cfg: Config, s: Upload, i: nat, answer: seq<string>)
    requires i in s.phases && HasRecorded(s.phases[i])
    ensures RecordedChunks(Finish(cfg, s, i, answer)) == RecordedChunks(s)
  {
  }

  /** When the request for chunk i may decide. */
  predicate MayFinish(cfg: Config, s: Upload, i: nat, answer: seq<string>) {
    && i in Chunks(cfg) && i in s.phases
    && s.phases[i] == if cfg.backend.S3? then Recorded(answer) else RecordedAndStored(answer)
  }

  lemma FinishParts(cfg: Config, ordered: bool, s: Upload, i: nat, answer: seq<string>)
    requires PartsInv(cfg, s) && MayFinish(cfg, s, i, answer)
    ensures PartsInv(cfg, Finish(cfg, s, i, answer))
    ensures BackendInv(cfg, s) ==> BackendInv(cfg, Finish(cfg, s, i, answer))
    ensures OrderInv(cfg, ordered, s) ==> OrderInv(cfg, ordered, Finish(cfg, s, i, answer))
  {
    hide AllParts, IsComplete;
  }

  /** What the deciding request knows: whether it came last, and then that all parts are there. */
  lemma DecidingRequest(cfg: Config, ordered: bool, s: Upload, i: nat, answer: seq<string>)
    requires ValidConfig(cfg) && Inv(cfg, ordered, s) && MayFinish(cfg, s, i, answer)
    ensures AnswerOk(cfg, s, i, answer)
    ensures LastOfAll(cfg, s, i) && (cfg.backend.S3? || ordered) ==> s.parts == AllParts(cfg)
  {
    hide AllParts, RecordedChunks, IsComplete, Records, FinalInv, PartsInv, OrderInv;
    if LastOfAll(cfg, s, i) && (cfg.backend.S3? || ordered) {
      LastHasAllParts(cfg, ordered, s, i);
    }
  }

  lemma FinishFinal(cfg: Config, ordered: bool, s: Upload, i: nat, answer: seq<string>)
    requires ValidConfig(cfg) && Inv(cfg, ordered, s) && MayFinish(cfg, s, i, answer)
    ensures FinalInv(cfg, ordered, Finish(cfg, s, i, answer))
  {
    hide AllParts, AllSums, RecordedChunks, PartsInv, OrderInv, AnswerInv, ArrayInv, BackendInv, IsComplete;
    FinishRecorded(cfg, s, i, answer);
    DecidingRequest(cfg, ordered, s, i, answer);
  }

  lemma FinishAnswers(cfg: Config, s: Upload, i: nat, answer: seq<string>)
    requires AnswerInv(cfg, s) && s.phases.Keys == Chunks(cfg) && MayFinish(cfg, s, i, answer)
    ensures AnswerInv(cfg, Finish(cfg, s, i, answer))
  {
    FinishRecorded(cfg, s, i, answer);
    hide RecordedChunks, IsComplete;
    AnswersStill(cfg, s, Finish(cfg, s, i, answer), i);
  }

  /** The decision at the end of a request. */
  lemma FinishKeeps(cfg: Config, ordered: bool, s: Upload, i: nat, answer: seq<string>)
    requires ValidConfig(cfg) && Inv(cfg, ordered, s) && MayFinish(cfg, s, i, answer)
    ensures Inv(cfg, ordered, Finish(cfg, s, i, answer))
  {
    FinishRecorded(cfg, s, i, answer);
    FinishAnswers(cfg, s, i, answer);
    FinishParts(cfg, ordered, s, i, answer);
    FinishFinal(cfg, ordered, s, i, answer);
    hide AnswerInv, PartsInv, FinalInv, OrderInv, BackendInv, Records, RecordedChunks;
  }

  lemma NextKeeps(cfg: Config, ordered: bool, s: Upload, i: nat)
    requires ValidConfig(cfg) && Inv(cfg, ordered, s)
    ensures Inv(cfg, ordered, Next(cfg, ordered, s, i))
  {
    hide Records, AnswerInv, FinalInv, PartsInv, Record, Store, Finish;
    if i in Chunks(cfg) {
      match s.phases[i] {
        case Idle =>
          if !ordered || i < |cfg.data| || OthersDone(s, i) {
            if cfg.backend.S3? { StoreKeeps(cfg, ordered, s, i, Stored); } else { RecordKeeps(cfg, ordered, s, i); }
          }
        case Stored => RecordKeeps(cfg, ordered, s, i);
        case Recorded(answer) =>
          if cfg.backend.S3? { FinishKeeps(cfg, ordered, s, i, answer); }
          else { StoreKeeps(cfg, ordered, s, i, RecordedAndStored(answer)); }
        case RecordedAndStored(answer) => FinishKeeps(cfg, ordered, s, i, answer);
        case Done =>
      }
    }
  }

  lemma {:induction false} RunKeeps(cfg: Config, ordered: bool, moves: seq<nat>)
    requires ValidConfig(cfg)
    ensures Inv(cfg, ordered, Run(cfg, ordered, moves))
  {
    if moves == [] {
      InvAtStart(cfg, ordered);
    } else {
      RunKeeps(cfg, ordered, moves[..|moves| - 1]);
      NextKeeps(cfg, ordered, Run(cfg, ordered, moves[..|moves| - 1]), moves[|moves| - 1]);
    }
  }

  // ----- Main results

  predicate AllDone(s: Upload) {
    forall i :: i in s.phases ==> s.phases[i].Done?
  }

  /** Over all interleavings at most one request finishes the upload, exactly one once all have
      been answered, and it passes the checksums in part order. */
  lemma ExactlyOneFinishes(cfg: Config, ordered: bool, moves: seq<nat>)
    requires ValidConfig(cfg)
    ensures var s := Run(cfg, ordered, moves);
            && |s.finals| <= 1
            && (AllDone(s) ==> |s.finals| == 1)
            && (s.finals != [] ==> s.finals[0].sums == AllSums(cfg))
  {
    var s := Run(cfg, ordered, moves);
    RunKeeps(cfg, ordered, moves);
    if AllDone(s) {
      assert RecordedChunks(s) == Chunks(cfg) && 1 in Chunks(cfg);
    }
  }

  /** With S3 in every interleaving, and with B2 if the final chunk is sent last, the one that
      finishes does so when every part is in storage. */
  lemma FinishesOverAllParts(cfg: Config, ordered: bool, moves: seq<nat>)
    requires ValidConfig(cfg) && (cfg.backend.S3? || ordered)
    ensures var s := Run(cfg, ordered, moves);
            s.finals != [] ==> s.finals[0].parts == AllParts(cfg)
  {
    RunKeeps(cfg, ordered, moves);
  }

  /** The requests of the chunks 2 to k each act once. */
  function Upwards(k: nat): seq<nat> {
    if k < 2 then [] else Upwards(k - 1) + [k]
  }

  /** With B2, the chunks 2 to k are recorded and wait, and nothing is stored. */
  ghost predicate Waiting(cfg: Config, s: Upload, k: nat) {
    && s.phases.Keys == Chunks(cfg) && s.parts == map[] && s.finals == []
    && forall j :: j in Chunks(cfg) ==> if 2 <= j <= k then s.phases[j].Recorded? else s.phases[j].Idle?
  }

  lemma OneMoreWaits(cfg: Config, s: Upload, k: nat)
    requires ValidConfig(cfg) && cfg.backend.B2? && 2 <= k <= |cfg.data| && Waiting(cfg, s, k - 1)
    ensures Waiting(cfg, Next(cfg, false, s, k), k)
  {
    hide AllParts, Assign, RemoveNulls;
    assert k in Chunks(cfg);
    assert Next(cfg, false, s, k) == Record(cfg, s, k);
  }

  lemma {:induction false} UpwardsWait(cfg: Config, k: nat)
    requires ValidConfig(cfg) && cfg.backend.B2? && k <= |cfg.data|
    ensures Waiting(cfg, Run(cfg, false, Upwards(k)), k)
  {
    if k < 2 {
      assert Upwards(k) == [];
    } else {
      hide Waiting;
      UpwardsWait(cfg, k - 1);
      OneMoreWaits(cfg, Run(cfg, false, Upwards(k - 1)), k);
      assert Upwards(k)[..|Upwards(k)| - 1] == Upwards(k - 1);
    }
  }

  lemma FirstChunkRecords(cfg: Config, s: Upload) returns (s1: Upload)
    requires ValidConfig(cfg) && cfg.backend.B2? && Waiting(cfg, s, |cfg.data|)
    ensures s1 == Next(cfg, false, s, 1) && 1 in s1.phases && s1.phases[1].Recorded?
    ensures LastOfAll(cfg, s1, 1) && s1.parts == map[] && s1.finals == []
  {
    hide Assign, RemoveNulls, AllParts;
    assert 1 in Chunks(cfg);
    s1 := Next(cfg, false, s, 1);
    assert s1 == Record(cfg, s, 1);
    forall j | j in Chunks(cfg)
      ensures HasRecorded(s1.phases[j])
    {
      assert 1 <= j <= |cfg.data|;
    }
  }

  /** Then chunk 1 records as the last one, stores its own part, and finishes. */
  lemma LateFirstChunk(cfg: Config, s: Upload) returns (s1: Upload, s2: Upload, s3: Upload)
    requires ValidConfig(cfg) && cfg.backend.B2? && Waiting(cfg, s, |cfg.data|) && Inv(cfg, false, s)
    ensures s1 == Next(cfg, false, s, 1) && s2 == Next(cfg, false, s1, 1) && s3 == Next(cfg, false, s2, 1)
    ensures |s3.finals| == 1 && 2 !in s3.finals[0].parts
  {
    hide Waiting, Next;
    s1 := FirstChunkRecords(cfg, s);
    assert s1 == Next(cfg, false, s, 1);
    NextKeeps(cfg, false, s, 1);
    s2, s3 := StoresAndFinishes(cfg, s1);
  }

  /** A request that has recorded as the last one ends the upload with its own part and those that
      are stored already. */
  lemma StoresAndFinishes(cfg: Config, s1: Upload) returns (s2: Upload, s3: Upload)
    requires ValidConfig(cfg) && cfg.backend.B2? && AnswerInv(cfg, s1)
    requires 1 in s1.phases && s1.phases[1].Recorded? && LastOfAll(cfg, s1, 1) && s1.parts == map[] && s1.finals == []
    ensures s2 == Next(cfg, false, s1, 1) && s3 == Next(cfg, false, s2, 1)
    ensures |s3.finals| == 1 && 2 !in s3.finals[0].parts
  {
    assert AnswerOk(cfg, s1, 1, s1.phases[1].answer);
    hide AnswerInv, AllParts, LastOfAll, IsComplete;
    assert 1 in Chunks(cfg);
    s2 := Next(cfg, false, s1, 1);
    s3 := Next(cfg, false, s2, 1);
  }

  lemma ThreeMore(cfg: Config, front: seq<nat>, s1: Upload, s2: Upload, s3: Upload)
    requires s1 == Next(cfg, false, Run(cfg, false, front), 1)
    requires s2 == Next(cfg, false, s1, 1) && s3 == Next(cfg, false, s2, 1)
    ensures Run(cfg, false, front + [1] + [1] + [1]) == s3
  {
    hide Next;
    assert (front + [1])[..|front|] == front;
    assert (front + [1] + [1])[..|front| + 1] == front + [1];
    assert (front + [1] + [1] + [1])[..|front| + 2] == front + [1] + [1];
    assert Run(cfg, false, front + [1]) == s1;
    assert Run(cfg, false, front + [1] + [1]) == s2;
  }

  /** Without that rule B2 can finish while parts are missing, whatever the number of chunks: all
      but the first one record and wait, and the first one records, stores and finishes. */
  lemma B2NeedsTheOrder(cfg: Config) returns (moves: seq<nat>)
    requires ValidConfig(cfg) && cfg.backend.B2?
    ensures var s := Run(cfg, false, moves);
            |s.finals| == 1 && s.finals[0].sums == AllSums(cfg) && 2 !in s.finals[0].parts
  {
    hide Next, Waiting, Inv;
    var front := Upwards(|cfg.data|);
    UpwardsWait(cfg, |cfg.data|);
    RunKeeps(cfg, false, front);
    var s1, s2, s3 := LateFirstChunk(cfg, Run(cfg, false, front));
    ThreeMore(cfg, front, s1, s2, s3);
    moves := front + [1] + [1] + [1];
    ExactlyOneFinishes(cfg, false, moves);
  }

  /** The finishing request sees all parts in every interleaving if and only if the backend is S3
      or the final chunk is sent last. */
  lemma AllPartsIff(cfg: Config, ordered: bool)
    requires ValidConfig(cfg)
    ensures cfg.backend.S3? || ordered
            <==> forall moves: seq<nat> :: Run(cfg, ordered, moves).finals != [] ==>
                                             Run(cfg, ordered, moves).finals[0].parts == AllParts(cfg)
  {
    hide Run, AllParts;
    if cfg.backend.S3? || ordered {
      forall moves: seq<nat>
        ensures Run(cfg, ordered, moves).finals != [] ==> Run(cfg, ordered, moves).finals[0].parts == AllParts(cfg)
      {
        FinishesOverAllParts(cfg, ordered, moves);
      }
    } else {
      var moves := B2NeedsTheOrder(cfg);
      assert 2 in Chunks(cfg);
    }
  }

  // ----- What the backends do with the result

  /** The parts of a completed S3 upload. */
  datatype CompletedPart = CompletedPart(etag: string, number: nat)

  /** FinishLargeUpload of the S3 backend numbers the checksums from 1. */
  method CompletedParts(sums: seq<string>) returns (parts: seq<CompletedPart>)
    ensures |parts| == |sums|
    ensures forall k :: 0 <= k < |parts| ==> parts[k] == CompletedPart(sums[k], k + 1)
  {
    parts := [];
    for i := 0 to |sums|
      invariant |parts| == i && forall k :: 0 <= k < i ==> parts[k] == CompletedPart(sums[k], k + 1)
    {
      parts := parts + [CompletedPart(sums[i], i + 1)];
    }
  }

  function Concat(parts: seq<Bytes>): Bytes {
    if parts == [] then [] else Concat(parts[..|parts| - 1]) + parts[|parts| - 1]
  }

  /** The parts 1 to n. */
  function InOrder(parts: map<nat, Bytes>, n: nat): seq<Bytes>
    requires forall i :: 1 <= i <= n ==> i in parts
  {
    if n == 0 then [] else InOrder(parts, n - 1) + [parts[n]]
  }

  predicate SumsMatch(cfg: Config, final: Final) {
    forall i :: 1 <= i <= |final.sums| ==> i in final.parts && cfg.digest(final.parts[i]) == final.sums[i - 1]
  }

  /** The storage puts the numbered parts together if it has each of them with that checksum. */
  function Assemble(cfg: Config, final: Final): Option<Bytes> {
    if SumsMatch(cfg, final) then Some(Concat(InOrder(final.parts, |final.sums|))) else None
  }

  lemma {:induction false} InOrderIs(parts: map<nat, Bytes>, data: seq<Bytes>, n: nat)
    requires n <= |data| && forall i :: 1 <= i <= n ==> i in parts && parts[i] == data[i - 1]
    ensures InOrder(parts, n) == data[..n]
  {
    if n == 0 {
    } else {
      InOrderIs(parts, data, n - 1);
    }
  }

  lemma AssembleAll(cfg: Config, final: Final)
    requires final == Final(AllSums(cfg), AllParts(cfg))
    ensures Assemble(cfg, final) == Some(Concat(cfg.data))
  {
    AllAreThere(cfg);
    hide Concat, InOrder, AllParts, AllSums;
    InOrderIs(final.parts, cfg.data, |cfg.data|);
    assert cfg.data[..|cfg.data|] == cfg.data;
  }

  lemma AllAreThere(cfg: Config)
    ensures |AllSums(cfg)| == |cfg.data|
    ensures forall i :: 1 <= i <= |cfg.data| ==>
                          && i in AllParts(cfg) && AllParts(cfg)[i] == cfg.data[i - 1]
                          && AllSums(cfg)[i - 1] == cfg.digest(cfg.data[i - 1])
  {
    assert forall i :: 1 <= i <= |cfg.data| ==> i in Chunks(cfg);
  }

  /** Whatever the interleaving, the stored object is the encrypted chunks in order. */
  lemma ObjectIsTheChunks(cfg: Config, ordered: bool, moves: seq<nat>)
    requires ValidConfig(cfg) && (cfg.backend.S3? || ordered) && AllDone(Run(cfg, ordered, moves))
    ensures var s := Run(cfg, ordered, moves);
            |s.finals| == 1 && Assemble(cfg, s.finals[0]) == Some(Concat(cfg.data))
  {
    hide Run, AllParts, AllSums, Assemble, AllDone;
    ExactlyOneFinishes(cfg, ordered, moves);
    FinishesOverAllParts(cfg, ordered, moves);
    AssembleAll(cfg, Run(cfg, ordered, moves).finals[0]);
  }

  const MAX_UPLOAD_ATTEMPTS := 5

  /** The retry loop of the B2 backend around one part; `works(k)` tells how call k ends. A part
      that is stored by the sixth call, the fifth repetition, is still reported as failed. */
  method UploadPart(works: nat -> bool) returns (ok: bool, calls: nat)
    ensures ok <==> exists k :: 0 <= k < MAX_UPLOAD_ATTEMPTS && works(k)
    ensures 1 <= calls <= MAX_UPLOAD_ATTEMPTS + 1
    ensures forall k :: 0 <= k < calls - 1 ==> !works(k)
    ensures calls <= MAX_UPLOAD_ATTEMPTS ==> works(calls - 1)
  {
    var attempt := 0;
    var err := !works(0);
    while err && attempt < MAX_UPLOAD_ATTEMPTS
      invariant 0 <= attempt <= MAX_UPLOAD_ATTEMPTS
      invariant forall k :: 0 <= k < attempt ==> !works(k)
      invariant err <==> !works(attempt)
    {
      attempt := attempt + 1;
      err := !works(attempt);
    }
    calls := attempt + 1;
    if attempt >= MAX_UPLOAD_ATTEMPTS {
      return false, calls;
    } else if err {
      return false, calls;
    }
    ok := true;
  }
}
