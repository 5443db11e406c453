/** One background task on many servers: the cron row, the advisory lock and runCronTask. */
module Cron {
  import opened Results

  /** Times and durations count nanoseconds. */
  const SECOND := 1_000_000_000

  /** A call of runCronTask on some server; calls that overlap count as different ones. */
  type Worker = nat

  /** The row of the task: locked_until, and which run has written it (None: InitCronTask). */
  datatype Row = Row(lockedUntil: int, writer: Option<nat>)

  /** What a worker has done so far. `from` is the run whose locked_until it has read, `checkedAt`
      the time at which it compared that with its clock. */
  datatype Phase =
    | Idle
    | HasRead(row: Row)
    | Passed(from: Option<nat>, checkedAt: int)
    | Ready(from: Option<nat>, checkedAt: int, lockUntil: int)
    | Running(from: Option<nat>, checkedAt: int, lockUntil: int)
    | Updated(from: Option<nat>, checkedAt: int)

  /** A run that has updated the row. */
  datatype TaskRun = TaskRun(worker: Worker, from: Option<nat>, checkedAt: int, lockUntil: int)

  datatype State = State(row: Row, holder: Option<Worker>, phases: map<Worker, Phase>, runs: seq<TaskRun>)

  datatype Action =
    | Read(w: Worker)
    | Check(w: Worker, now: int)
    | Stamp(w: Worker, now: int)
    | Acquire(w: Worker)
    | Update(w: Worker, stored: bool)
    | Release(w: Worker)

  function At(s: State, w: Worker): Phase {
    if w in s.phases then s.phases[w] else Idle
  }

  function To(s: State, w: Worker, p: Phase): State {
    s.(phases := s.phases[w := p])
  }

  /** One action of one worker; an action that does not fit its phase changes nothing. A clock
      does not go back between the check and the stamp of the same worker. */
  function Step(interval: int, s: State, a: Action): State {
    match a
    case Read(w) => if At(s, w).Idle? then To(s, w, HasRead(s.row)) else s
    case Check(w, now) =>
      if !At(s, w).HasRead? then s
      else if At(s, w).row.lockedUntil > now then To(s, w, Idle)
      else To(s, w, Passed(At(s, w).row.writer, now))
    case Stamp(w, now) =>
      if At(s, w).Passed? && now >= At(s, w).checkedAt then
        To(s, w, Ready(At(s, w).from, At(s, w).checkedAt, now - SECOND + interval))
      else s
    case Acquire(w) =>
      if !At(s, w).Ready? then s
      else if s.holder.Some? then To(s, w, Idle)
      else To(s, w, Running(At(s, w).from, At(s, w).checkedAt, At(s, w).lockUntil)).(holder := Some(w))
    case Update(w, stored) =>
      if !At(s, w).Running? then s
      else
        var p := At(s, w);
        var next := To(s, w, Updated(p.from, p.checkedAt));
        if !stored then next
        else next.(row := Row(p.lockUntil, Some(|s.runs|)), runs := s.runs + [TaskRun(w, p.from, p.checkedAt, p.lockUntil)])
    case Release(w) => if At(s, w).Updated? then To(s, w, Idle).(holder := None) else s
  }

  function Start(lockedUntil: int): State {
    State(Row(lockedUntil, None), None, map[], [])
  }

  function Steps(interval: int, s: State, actions: seq<Action>): State
    decreases |actions|
  {
    if actions == [] then s else Steps(interval, Step(interval, s, actions[0]), actions[1..])
  }

  /** An interleaving of the actions of all workers. */
  function Run(interval: int, lockedUntil: int, actions: seq<Action>): State {
    Steps(interval, Start(lockedUntil), actions)
  }

  // ----- Invariants

  predicate IsInTask(p: Phase) {
    p.Running? || p.Updated?
  }

  /** The lock is held exactly by the worker that is in the task. */
  ghost predicate LockInv(s: State) {
    forall w: Worker :: s.holder == Some(w) <==> IsInTask(At(s, w))
  }

  /** A check at this time respects the run that it has read. */
  predicate Spaced(interval: int, runs: seq<TaskRun>, from: Option<nat>, checkedAt: int) {
    from.Some? ==> from.value < |runs| && checkedAt >= runs[from.value].checkedAt + interval - SECOND
  }

  predicate RowOk(runs: seq<TaskRun>, row: Row) {
    row.writer.Some? ==> row.writer.value < |runs| && row.lockedUntil == runs[row.writer.value].lockUntil
  }

  predicate PhaseOk(interval: int, runs: seq<TaskRun>, p: Phase) {
    match p
    case Idle => true
    case HasRead(row) => RowOk(runs, row)
    case Passed(from, checkedAt) => Spaced(interval, runs, from, checkedAt)
    case Ready(from, checkedAt, lockUntil) =>
      Spaced(interval, runs, from, checkedAt) && lockUntil >= checkedAt - SECOND + interval
    case Running(from, checkedAt, lockUntil) =>
      Spaced(interval, runs, from, checkedAt) && lockUntil >= checkedAt - SECOND + interval
    case Updated(from, checkedAt) => Spaced(interval, runs, from, checkedAt)
  }

  /** The row is that of the last run that has updated it. */
  predicate RowIsLast(s: State) {
    s.row.writer == if s.runs == [] then None else Some(|s.runs| - 1)
  }

  ghost predicate TimeInv(interval: int, s: State) {
    && RowOk(s.runs, s.row) && RowIsLast(s)
    && (forall i :: 0 <= i < |s.runs| ==> s.runs[i].lockUntil >= s.runs[i].checkedAt - SECOND + interval)
    && (forall i :: 0 <= i < |s.runs| ==> Spaced(interval, s.runs[..i], s.runs[i].from, s.runs[i].checkedAt))
    && (forall w :: w in s.phases ==> PhaseOk(interval, s.runs, s.phases[w]))
  }

  lemma LockStep(interval: int, s: State, a: Action)
    requires LockInv(s)
    ensures LockInv(Step(interval, s, a))
  {
  }

  lemma PhaseMoves(interval: int, s: State, s': State, w: Worker)
    requires TimeInv(interval, s) && s'.row == s.row && s'.runs == s.runs
    requires s'.phases == s.phases || (w in s'.phases && s'.phases == s.phases[w := s'.phases[w]])
    requires w in s'.phases ==> PhaseOk(interval, s.runs, s'.phases[w])
    ensures TimeInv(interval, s')
  {
    hide Spaced, RowOk, PhaseOk;
  }

  lemma PhaseStays(interval: int, runs: seq<TaskRun>, run: TaskRun, p: Phase)
    requires PhaseOk(interval, runs, p)
    ensures PhaseOk(interval, runs + [run], p)
  {
  }

  lemma RunAdded(interval: int, s: State, w: Worker)
    requires TimeInv(interval, s) && At(s, w).Running?
    ensures TimeInv(interval, Step(interval, s, Update(w, true)))
  {
    var s' := Step(interval, s, Update(w, true));
    var run := s'.runs[|s.runs|];
    assert PhaseOk(interval, s.runs, s.phases[w]);
    assert forall i :: 0 <= i < |s.runs| ==> s'.runs[..i] == s.runs[..i];
    assert s'.runs[..|s.runs|] == s.runs;
    assert PhaseOk(interval, s'.runs, s'.phases[w]);
    hide PhaseOk;
    forall v | v in s'.phases
      ensures PhaseOk(interval, s'.runs, s'.phases[v])
    {
      if v != w {
        PhaseStays(interval, s.runs, run, s.phases[v]);
      }
    }
  }

  lemma TimeStep(interval: int, s: State, a: Action)
    requires TimeInv(interval, s)
    ensures TimeInv(interval, Step(interval, s, a))
  {
    if a.Update? && a.stored && At(s, a.w).Running? {
      RunAdded(interval, s, a.w);
    } else {
      var s' := Step(interval, s, a);
      assert a.w in s.phases ==> PhaseOk(interval, s.runs, s.phases[a.w]);
      assert a.w in s'.phases ==> PhaseOk(interval, s.runs, s'.phases[a.w]);
      hide TimeInv, Spaced, RowOk, PhaseOk;
      PhaseMoves(interval, s, s', a.w);
    }
  }

  lemma {:induction false} StepsKeep(interval: int, s: State, actions: seq<Action>)
    requires LockInv(s) && TimeInv(interval, s)
    ensures LockInv(Steps(interval, s, actions)) && TimeInv(interval, Steps(interval, s, actions))
    decreases |actions|
  {
    hide LockInv, TimeInv;
    if actions == [] {
    } else {
      LockStep(interval, s, actions[0]);
      TimeStep(interval, s, actions[0]);
      StepsKeep(interval, Step(interval, s, actions[0]), actions[1..]);
    }
  }

  lemma RunKeeps(interval: int, lockedUntil: int, actions: seq<Action>)
    ensures LockInv(Run(interval, lockedUntil, actions)) && TimeInv(interval, Run(interval, lockedUntil, actions))
  {
    StepsKeep(interval, Start(lockedUntil), actions);
  }

  // ----- Main results

  /** Over any number of servers and any interleaving, no two are in the task at once. */
  lemma MutualExclusion(interval: int, lockedUntil: int, actions: seq<Action>, v: Worker, w: Worker)
    requires IsInTask(At(Run(interval, lockedUntil, actions), v)) && IsInTask(At(Run(interval, lockedUntil, actions), w))
    ensures v == w
  {
    RunKeeps(interval, lockedUntil, actions);
  }

  /** A worker in the task has checked at least the interval, less one second, after the check of
      the run whose locked_until it read. */
  lemma ChecksAreSpaced(interval: int, lockedUntil: int, actions: seq<Action>, w: Worker)
    ensures var s := Run(interval, lockedUntil, actions);
            IsInTask(At(s, w)) && At(s, w).from.Some? ==>
              && At(s, w).from.value < |s.runs|
              && At(s, w).checkedAt >= s.runs[At(s, w).from.value].checkedAt + interval - SECOND
  {
    RunKeeps(interval, lockedUntil, actions);
    var s := Run(interval, lockedUntil, actions);
    assert PhaseOk(interval, s.runs, At(s, w));
  }

  /** The same for runs that are over: each has read an earlier one. */
  lemma RunsAreSpaced(interval: int, lockedUntil: int, actions: seq<Action>, i: nat)
    requires i < |Run(interval, lockedUntil, actions).runs|
    ensures var runs := Run(interval, lockedUntil, actions).runs;
            runs[i].from.Some? ==>
              runs[i].from.value < i && runs[i].checkedAt >= runs[runs[i].from.value].checkedAt + interval - SECOND
  {
    RunKeeps(interval, lockedUntil, actions);
    var runs := Run(interval, lockedUntil, actions).runs;
    assert Spaced(interval, runs[..i], runs[i].from, runs[i].checkedAt);
  }

  // ----- Consecutive runs

  /** A worker in the task whose read has not been overtaken, because the row is still the one it
      has read, has checked at least the interval, less one second, after the run before it. */
  lemma UnovertakenIsSpaced(interval: int, lockedUntil: int, actions: seq<Action>, w: Worker)
    ensures var s := Run(interval, lockedUntil, actions);
            At(s, w).Running? && At(s, w).from == s.row.writer && s.runs != [] ==>
              At(s, w).checkedAt >= s.runs[|s.runs| - 1].checkedAt + interval - SECOND
  {
    RunKeeps(interval, lockedUntil, actions);
    var s := Run(interval, lockedUntil, actions);
    assert PhaseOk(interval, s.runs, At(s, w));
  }

  /** No run so far has been overtaken: each has read what the one before it wrote. */
  predicate NoneOvertaken(runs: seq<TaskRun>) {
    forall i :: 0 <= i < |runs| ==> runs[i].from == if i == 0 then None else Some(i - 1)
  }

  lemma {:induction false} EarlierRuns(interval: int, runs: seq<TaskRun>, i: nat, j: nat)
    requires interval >= SECOND && NoneOvertaken(runs) && i < j < |runs|
    requires forall k :: 0 <= k < |runs| ==> Spaced(interval, runs[..k], runs[k].from, runs[k].checkedAt)
    ensures runs[j].checkedAt >= runs[i].checkedAt + interval - SECOND
    decreases j
  {
    assert Spaced(interval, runs[..j], runs[j].from, runs[j].checkedAt);
    if i == j - 1 {
      assert runs[..j][i] == runs[i];
    } else {
      EarlierRuns(interval, runs, i, j - 1);
      assert runs[..j][j - 1] == runs[j - 1];
    }
  }

  /** Without overtaken runs any two runs are spaced, so there is at most one in each interval. */
  lemma AllRunsAreSpaced(interval: int, lockedUntil: int, actions: seq<Action>, i: nat, j: nat)
    requires interval >= SECOND && NoneOvertaken(Run(interval, lockedUntil, actions).runs)
    requires i < j < |Run(interval, lockedUntil, actions).runs|
    ensures var runs := Run(interval, lockedUntil, actions).runs;
            runs[j].checkedAt >= runs[i].checkedAt + interval - SECOND
  {
    RunKeeps(interval, lockedUntil, actions);
    EarlierRuns(interval, Run(interval, lockedUntil, actions).runs, i, j);
  }

  /** Worker w, who has read the row, goes on undisturbed until it updates the row. */
  function Continue(interval: int, s: State, w: Worker, checkedAt: int, stampedAt: int): State {
    Step(interval, Step(interval, Step(interval, Step(interval, s, Check(w, checkedAt)), Stamp(w, stampedAt)), Acquire(w)),
         Update(w, true))
  }

  /** Worker w runs the task less than the interval, less one second, after the last run. */
  predicate RunsInside(interval: int, s: State, w: Worker, checkedAt: int, stampedAt: int) {
    var s' := Continue(interval, s, w, checkedAt, stampedAt);
    && |s'.runs| == |s.runs| + 1 >= 2 && s'.runs[|s.runs|].worker == w
    && s'.runs[|s.runs|].checkedAt < s.runs[|s.runs| - 1].checkedAt + interval - SECOND
  }

  lemma ContinuesIff(interval: int, s: State, w: Worker, checkedAt: int, stampedAt: int)
    requires At(s, w).HasRead? && s.holder == None && s.runs != []
    ensures var runs := Continue(interval, s, w, checkedAt, stampedAt).runs;
            if At(s, w).row.lockedUntil <= checkedAt <= stampedAt then
              |runs| == |s.runs| + 1 && runs[|s.runs|].worker == w && runs[|s.runs|].checkedAt == checkedAt
            else runs == s.runs
  {
  }

  /** From any state with the lock free, some clock readings make a worker run the task inside the
      interval of the last run if and only if the time it has read lies before the end of that
      interval; and this can only be if the read has been overtaken. */
  lemma RunsInsideIff(interval: int, lockedUntil: int, actions: seq<Action>, w: Worker)
    requires var s := Run(interval, lockedUntil, actions); At(s, w).HasRead? && s.holder == None && s.runs != []
    ensures var s := Run(interval, lockedUntil, actions);
            && ((exists checkedAt, stampedAt :: RunsInside(interval, s, w, checkedAt, stampedAt))
                <==> At(s, w).row.lockedUntil < s.runs[|s.runs| - 1].checkedAt + interval - SECOND)
            && (At(s, w).row.lockedUntil < s.runs[|s.runs| - 1].checkedAt + interval - SECOND ==>
                  At(s, w).row.writer != s.row.writer)
  {
    hide Step, Continue;
    RunKeeps(interval, lockedUntil, actions);
    var s := Run(interval, lockedUntil, actions);
    var until := At(s, w).row.lockedUntil;
    assert PhaseOk(interval, s.runs, At(s, w));
    forall checkedAt, stampedAt
      ensures RunsInside(interval, s, w, checkedAt, stampedAt) <==>
              until <= checkedAt <= stampedAt && checkedAt < s.runs[|s.runs| - 1].checkedAt + interval - SECOND
    {
      ContinuesIff(interval, s, w, checkedAt, stampedAt);
    }
    if until < s.runs[|s.runs| - 1].checkedAt + interval - SECOND {
      assert RunsInside(interval, s, w, until, until);
    }
  }

  /** Worker w passes the check and stamps, undisturbed by the others. */
  lemma CheckPasses(interval: int, s: State, w: Worker, now: int)
    requires At(s, w).Idle? && s.row.lockedUntil <= now
    ensures var s' := Step(interval, Step(interval, Step(interval, s, Read(w)), Check(w, now)), Stamp(w, now));
            && At(s', w) == Ready(s.row.writer, now, now - SECOND + interval)
            && s'.row == s.row && s'.holder == s.holder && s'.runs == s.runs
            && forall v: Worker :: v != w ==> At(s', v) == At(s, v)
  {
  }

  /** Worker w finds the lock free and runs the task. */
  lemma TaskIsRun(interval: int, s: State, w: Worker)
    requires At(s, w).Ready? && s.holder == None
    ensures var s' := Step(interval, Step(interval, Step(interval, s, Acquire(w)), Update(w, true)), Release(w));
            && s'.runs == s.runs + [TaskRun(w, At(s, w).from, At(s, w).checkedAt, At(s, w).lockUntil)]
            && s'.holder == None && s'.row == Row(At(s, w).lockUntil, Some(|s.runs|))
            && forall v: Worker :: v != w ==> At(s', v) == At(s, v)
  {
  }

  /** Such a state is reached: locked_until is not read again under the lock, so a second server
      that has checked before the first one updates the row runs the task right after it. */
  lemma SecondRunInInterval(interval: int, now: int)
    ensures var s := Run(interval, now, [Read(0), Check(0, now), Stamp(0, now), Read(1), Check(1, now), Stamp(1, now),
                                         Acquire(0), Update(0, true), Release(0), Acquire(1), Update(1, true), Release(1)]);
            |s.runs| == 2 && s.runs[0].checkedAt == s.runs[1].checkedAt == now && s.runs[1].from == None
  {
    hide Step;
    var last := [Acquire(1), Update(1, true), Release(1)];
    var third := [Acquire(0), Update(0, true), Release(0)] + last;
    var second := [Read(1), Check(1, now), Stamp(1, now)] + third;
    var s0 := Start(now);
    var s1 := Three(interval, s0, Read(0), Check(0, now), Stamp(0, now), second);
    CheckPasses(interval, s0, 0, now);
    var s2 := Three(interval, s1, Read(1), Check(1, now), Stamp(1, now), third);
    CheckPasses(interval, s1, 1, now);
    var s3 := Three(interval, s2, Acquire(0), Update(0, true), Release(0), last);
    TaskIsRun(interval, s2, 0);
    assert last == [Acquire(1), Update(1, true), Release(1)] + [];
    var s4 := Three(interval, s3, Acquire(1), Update(1, true), Release(1), []);
    TaskIsRun(interval, s3, 1);
    assert [Read(0), Check(0, now), Stamp(0, now)] + second ==
           [Read(0), Check(0, now), Stamp(0, now), Read(1), Check(1, now), Stamp(1, now),
            Acquire(0), Update(0, true), Release(0), Acquire(1), Update(1, true), Release(1)];
    assert Run(interval, now, [Read(0), Check(0, now), Stamp(0, now)] + second) == s4;
  }

  /** A run that has not been overtaken itself is spaced from the run before it, but not always from
      earlier ones: here the run before it was overtaken and had checked before the first one. */
  lemma SpacedFromLastOnly(interval: int, later: int)
    requires later > 0
    ensures var until := interval - SECOND;
            var s := Run(interval, 0, [Read(1), Check(1, 0), Stamp(1, 0), Read(0), Check(0, later), Stamp(0, later),
                                       Acquire(0), Update(0, true), Release(0), Acquire(1), Update(1, true), Release(1),
                                       Read(2), Check(2, until), Stamp(2, until), Acquire(2)]);
            && At(s, 2).Running? && At(s, 2).from == s.row.writer && |s.runs| == 2
            && At(s, 2).checkedAt < s.runs[0].checkedAt + interval - SECOND
  {
    hide Step;
    var until := interval - SECOND;
    var fifth := [Read(2), Check(2, until), Stamp(2, until)] + [Acquire(2)];
    var fourth := [Acquire(1), Update(1, true), Release(1)] + fifth;
    var third := [Acquire(0), Update(0, true), Release(0)] + fourth;
    var second := [Read(0), Check(0, later), Stamp(0, later)] + third;
    var s1 := Three(interval, Start(0), Read(1), Check(1, 0), Stamp(1, 0), second);
    CheckPasses(interval, Start(0), 1, 0);
    var s2 := Three(interval, s1, Read(0), Check(0, later), Stamp(0, later), third);
    CheckPasses(interval, s1, 0, later);
    var s3 := Three(interval, s2, Acquire(0), Update(0, true), Release(0), fourth);
    TaskIsRun(interval, s2, 0);
    var s4 := Three(interval, s3, Acquire(1), Update(1, true), Release(1), fifth);
    TaskIsRun(interval, s3, 1);
    var s5 := Three(interval, s4, Read(2), Check(2, until), Stamp(2, until), [Acquire(2)]);
    CheckPasses(interval, s4, 2, until);
    TaskBegins(interval, s5, 2);
    assert [Read(1), Check(1, 0), Stamp(1, 0)] + second ==
           [Read(1), Check(1, 0), Stamp(1, 0), Read(0), Check(0, later), Stamp(0, later),
            Acquire(0), Update(0, true), Release(0), Acquire(1), Update(1, true), Release(1),
            Read(2), Check(2, until), Stamp(2, until), Acquire(2)];
  }

  lemma TaskBegins(interval: int, s: State, w: Worker)
    requires At(s, w).Ready? && s.holder == None
    ensures var s' := Steps(interval, s, [Acquire(w)]);
            && s'.runs == s.runs && s'.row == s.row
            && At(s', w) == Running(At(s, w).from, At(s, w).checkedAt, At(s, w).lockUntil)
  {
    assert [Acquire(w)][1..] == [];
  }

  lemma Three(interval: int, s: State, a: Action, b: Action, c: Action, rest: seq<Action>) returns (s': State)
    ensures s' == Step(interval, Step(interval, Step(interval, s, a), b), c)
    ensures Steps(interval, s, [a, b, c] + rest) == Steps(interval, s', rest)
  {
    hide Step;
    s' := Step(interval, Step(interval, Step(interval, s, a), b), c);
    assert ([a, b, c] + rest)[1..] == [b, c] + rest;
    assert ([b, c] + rest)[1..] == [c] + rest;
    assert ([c] + rest)[1..] == rest;
    assert Steps(interval, Step(interval, s, a), [b, c] + rest) == Steps(interval, Step(interval, Step(interval, s, a), b), [c] + rest);
  }

  lemma Six(interval: int, s: State, a: Action, b: Action, c: Action, d: Action, e: Action, f: Action)
    ensures Steps(interval, s, [a, b, c, d, e, f]) ==
              Step(interval, Step(interval, Step(interval, Step(interval, Step(interval, Step(interval, s, a), b), c), d), e), f)
  {
    hide Step;
    var s1 := Three(interval, s, a, b, c, [d, e, f]);
    var s2 := Three(interval, s1, d, e, f, []);
    assert [a, b, c] + [d, e, f] == [a, b, c, d, e, f] && [d, e, f] + [] == [d, e, f];
  }

  /** All that an uninterrupted call does, with the lock free: the task is run exactly if the time in the
      row has come, and the row then holds the time of the stamp and the interval, less one second. */
  lemma CallRunsIff(interval: int, s: State, w: Worker, checkedAt: int, stampedAt: int)
    requires At(s, w).Idle? && s.holder == None && checkedAt <= stampedAt
    ensures var now := Steps(interval, s, [Read(w), Check(w, checkedAt), Stamp(w, stampedAt), Acquire(w), Update(w, true), Release(w)]);
            && now.holder == None && (forall v :: At(now, v) == At(s, v))
            && if s.row.lockedUntil <= checkedAt
               then |now.runs| == |s.runs| + 1 && now.runs[..|s.runs|] == s.runs && now.row.lockedUntil == stampedAt + interval - SECOND
               else now.runs == s.runs && now.row == s.row
  {
    Six(interval, s, Read(w), Check(w, checkedAt), Stamp(w, stampedAt), Acquire(w), Update(w, true), Release(w));
  }

  /** Of two calls on any servers, one after the other, the second runs the task exactly if it checks the
      interval, less one second, after the stamp of the first one or later. */
  lemma NextRunIff(interval: int, s: State, v: Worker, w: Worker, c1: int, t1: int, c2: int, t2: int)
    requires At(s, v).Idle? && At(s, w).Idle? && s.holder == None && s.row.lockedUntil <= c1 <= t1 && c2 <= t2
    ensures var one := Steps(interval, s, [Read(v), Check(v, c1), Stamp(v, t1), Acquire(v), Update(v, true), Release(v)]);
            var two := Steps(interval, one, [Read(w), Check(w, c2), Stamp(w, t2), Acquire(w), Update(w, true), Release(w)]);
            |one.runs| == |s.runs| + 1 && |two.runs| == |one.runs| + if c2 >= t1 + interval - SECOND then 1 else 0
  {
    hide Steps;
    CallRunsIff(interval, s, v, c1, t1);
    CallRunsIff(interval, Steps(interval, s, [Read(v), Check(v, c1), Stamp(v, t1), Acquire(v), Update(v, true), Release(v)]), w, c2, t2);
  }

  // ----- runCronTask of a worker that nobody interrupts

  class Database {
    var row: Row
    var holder: Option<Worker>
    var runs: seq<TaskRun>

    function S(): State
      reads this
    {
      State(row, holder, map[], runs)
    }

    method AcquireCronTaskLock(w: Worker) returns (acquired: bool)
      modifies this`holder
      ensures acquired == old(holder).None? && holder == if acquired then Some(w) else old(holder)
    {
      acquired := holder.None?;
      if acquired {
        holder := Some(w);
      }
    }

    /** `stored` tells whether the database accepts the update of the row. */
    method UpdateTaskLock(w: Worker, from: Option<nat>, checkedAt: int, lockUntil: int, stored: bool)
      modifies this
      ensures holder == None
      ensures stored ==>
                row == Row(lockUntil, Some(|old(runs)|)) && runs == old(runs) + [TaskRun(w, from, checkedAt, lockUntil)]
      ensures !stored ==> row == old(row) && runs == old(runs)
    {
      if stored {
        row, runs := Row(lockUntil, Some(|runs|)), runs + [TaskRun(w, from, checkedAt, lockUntil)];
      }
      holder := None;
    }

    /** The result is that of the six actions of the worker one after the other. */
    method RunCronTask(interval: int, w: Worker, checkedAt: int, stampedAt: int, stored: bool)
      requires checkedAt <= stampedAt
      modifies this
      ensures S() == Steps(interval, old(S()), [Read(w), Check(w, checkedAt), Stamp(w, stampedAt), Acquire(w),
                                                Update(w, stored), Release(w)]).(phases := map[])
    {
      var read := row;
      Six(interval, S(), Read(w), Check(w, checkedAt), Stamp(w, stampedAt), Acquire(w), Update(w, stored), Release(w));
      if read.lockedUntil > checkedAt {
        return;
      }
      var lockUntil := stampedAt - SECOND + interval;
      var acquired := AcquireCronTaskLock(w);
      if !acquired {
        return;
      }
      UpdateTaskLock(w, read.writer, checkedAt, lockUntil, stored);
    }
  }
}
