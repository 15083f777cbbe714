/** A flush that nobody disturbs is, as a run of the queue system, exactly what the flush loop computes. */
module QueueFlush {
  import opened PyText
  import opened RegistryStore
  import RegistryRuns
  import opened Replay
  import opened CaptureQueues
  import opened QueueSystem

  /** The actions are all process `p`'s own, and none of them is a crash. */
  predicate OnlyBy(p: nat, actions: seq<Action>) {
    forall i :: 0 <= i < |actions| ==> By(p, actions[i])
  }

  predicate By(p: nat, action: Action) {
    action in {Acquire(p), ReadFile(p), SkipOne(p), BeginReplay(p), Transact(p), FinishReplay(p), ReplaceFile(p),
               Release(p)}
  }

  lemma {:induction false} RunAppend(s: System, a: seq<Action>, b: seq<Action>)
    ensures Run(s, a + b) == Run(Run(s, a), b)
    decreases |a|
  {
    hide Do;
    if a == [] {
      assert a + b == b;
    } else {
      assert (a + b)[1..] == a[1..] + b;
      RunAppend(Do(s, a[0]), a[1..], b);
    }
  }

  lemma RunOne(s: System, action: Action)
    ensures Run(s, [action]) == Do(s, action)
  {
    hide Do;
    assert [action][1..] == [];
  }

  /** Process `p` at envelope `at` of a flush of `file`, everything before it dealt with. */
  ghost function FlushAt(s: System, p: nat, status: BackendStatus, file: seq<Envelope>, f: Flushed, at: nat): System {
    To(s.(reg := f.st), p, Flushing(status, file, at, f.remaining))
  }

  ghost function ReplayAt(s: System, p: nat, status: BackendStatus, file: seq<Envelope>, f: Flushed, at: nat,
      k: nat): System
    requires at < |file| && k <= Length(file[at].bundle)
  {
    var a := Exec(file[at].bundle, k, f.st);
    To(s.(reg := a.st), p, Replaying(status, file, at, f.remaining, k, a.local))
  }

  lemma LaterPhaseWins(s: System, p: nat, x: Phase, y: Phase, reg: State)
    ensures To(To(s, p, x).(reg := reg), p, y) == To(s.(reg := reg), p, y)
    ensures To(To(s, p, x), p, y) == To(s, p, y)
  {
    assert s.procs[p := x][p := y] == s.procs[p := y];
  }

  /** One transaction of a replay that goes through, one that fails, and the answer after the last. */
  lemma StepRuns(s: System, p: nat, status: BackendStatus, file: seq<Envelope>, f: Flushed, at: nat, k: nat)
    requires at < |file| && k < Length(file[at].bundle)
    requires !Exec(file[at].bundle, k, f.st).failed && !Exec(file[at].bundle, k + 1, f.st).failed
    ensures Run(ReplayAt(s, p, status, file, f, at, k), [Transact(p)]) == ReplayAt(s, p, status, file, f, at, k + 1)
  {
    hide DoStep, Exec, SetStatus;
    var b := file[at].bundle;
    var now, next := ReplayAt(s, p, status, file, f, at, k), Exec(b, k + 1, f.st);
    OneStepOn(b, k, f.st);
    RunOne(now, Transact(p));
    LaterPhaseWins(s, p, PhaseOf(now, p), Replaying(status, file, at, f.remaining, k + 1, next.local), next.st);
  }

  lemma FailureRuns(s: System, p: nat, status: BackendStatus, file: seq<Envelope>, f: Flushed, at: nat, k: nat)
    requires at < |file| && k < Length(file[at].bundle) && MatchesBackend(file[at], status)
    requires !Exec(file[at].bundle, k, f.st).failed && Exec(file[at].bundle, k + 1, f.st).failed
    ensures Run(ReplayAt(s, p, status, file, f, at, k), [Transact(p)])
         == FlushAt(s, p, status, file, FlushOne(f, file[at], status), at + 1)
  {
    hide DoStep, Exec, SetStatus, MatchesBackend;
    var b := file[at].bundle;
    var now, next := ReplayAt(s, p, status, file, f, at, k), Exec(b, k + 1, f.st);
    OneStepOn(b, k, f.st);
    RunOne(now, Transact(p));
    FailedIsTheResult(b, k + 1, f.st);
    var kept := f.remaining + [Retried(file[at], FAILED)];
    LaterPhaseWins(s, p, PhaseOf(now, p), Flushing(status, file, at + 1, kept), next.st);
  }

  lemma AnswerRuns(s: System, p: nat, status: BackendStatus, file: seq<Envelope>, f: Flushed, at: nat)
    requires at < |file| && MatchesBackend(file[at], status)
    requires !Exec(file[at].bundle, Length(file[at].bundle), f.st).failed
    ensures Run(ReplayAt(s, p, status, file, f, at, Length(file[at].bundle)), [FinishReplay(p)])
         == FlushAt(s, p, status, file, FlushOne(f, file[at], status), at + 1)
  {
    hide DoStep, Exec, SetStatus, MatchesBackend;
    var b := file[at].bundle;
    var now, a := ReplayAt(s, p, status, file, f, at, Length(b)), Exec(b, Length(b), f.st);
    RunOne(now, FinishReplay(p));
    LaterPhaseWins(s, p, PhaseOf(now, p), Flushing(status, file, at + 1, f.remaining), Answer(a));
  }

  /** From its `k`th transaction on, a replay ends as the replay function says. */
  lemma {:induction false} ReplayRuns(s: System, p: nat, status: BackendStatus, file: seq<Envelope>, f: Flushed,
                                      at: nat, k: nat)
    returns (actions: seq<Action>)
    requires at < |file| && k <= Length(file[at].bundle) && MatchesBackend(file[at], status)
    requires !Exec(file[at].bundle, k, f.st).failed
    ensures OnlyBy(p, actions)
    ensures Run(ReplayAt(s, p, status, file, f, at, k), actions)
         == FlushAt(s, p, status, file, FlushOne(f, file[at], status), at + 1)
    decreases Length(file[at].bundle) - k
  {
    hide Do, Run, Exec, MatchesBackend, FlushOne, FlushAt, ReplayAt;
    var b := file[at].bundle;
    if k == Length(b) {
      actions := [FinishReplay(p)];
      AnswerRuns(s, p, status, file, f, at);
    } else if Exec(b, k + 1, f.st).failed {
      actions := [Transact(p)];
      FailureRuns(s, p, status, file, f, at, k);
    } else {
      var rest := ReplayRuns(s, p, status, file, f, at, k + 1);
      actions := [Transact(p)] + rest;
      StepRuns(s, p, status, file, f, at, k);
      RunAppend(ReplayAt(s, p, status, file, f, at, k), [Transact(p)], rest);
    }
  }

  lemma {:induction false} EnvelopeRuns(s: System, p: nat, status: BackendStatus, file: seq<Envelope>, f: Flushed,
      at: nat)
    returns (actions: seq<Action>)
    requires at < |file|
    ensures OnlyBy(p, actions)
    ensures Run(FlushAt(s, p, status, file, f, at), actions)
        == FlushAt(s, p, status, file, FlushOne(f, file[at], status), at + 1)
  {
    hide Complete, MatchesBackend;
    var now := FlushAt(s, p, status, file, f, at);
    if MatchesBackend(file[at], status) {
      var begun := ReplayAt(s, p, status, file, f, at, 0);
      NothingExecuted(file[at].bundle, f.st);
      var rest := ReplayRuns(s, p, status, file, f, at, 0);
      actions := [BeginReplay(p)] + rest;
      RunOne(now, BeginReplay(p));
      LaterPhaseWins(s, p, PhaseOf(now, p), PhaseOf(begun, p), f.st);
      RunAppend(now, [BeginReplay(p)], rest);
    } else {
      actions := [SkipOne(p)];
      RunOne(now, SkipOne(p));
      LaterPhaseWins(s, p, PhaseOf(now, p), Flushing(status, file, at + 1, f.remaining + [file[at]]), f.st);
    }
  }

  lemma NothingExecuted(b: Bundle, st: State)
    ensures Exec(b, 0, st) == Attempt(st, START, false)
  {
  }

  lemma {:induction false} FileRuns(s: System, p: nat, status: BackendStatus, at: nat) returns (actions: seq<Action>)
    requires at <= |s.file|
    ensures OnlyBy(p, actions)
    ensures Run(FlushAt(s, p, status, s.file, FlushAll([], status, s.reg), 0), actions)
         == FlushAt(s, p, status, s.file, FlushAll(s.file[..at], status, s.reg), at)
  {
    hide FlushOne, FlushAt;
    if at == 0 {
      actions := [];
      assert s.file[..0] == [];
    } else {
      var front := FileRuns(s, p, status, at - 1);
      var f := FlushAll(s.file[..at - 1], status, s.reg);
      var last := EnvelopeRuns(s, p, status, s.file, f, at - 1);
      actions := front + last;
      RunAppend(FlushAt(s, p, status, s.file, FlushAll([], status, s.reg), 0), front, last);
      assert s.file[..at][..at - 1] == s.file[..at - 1] && s.file[..at][at - 1] == s.file[at - 1];
    }
  }

  /** A process that waits to flush while the lock is free can finish. */
  lemma FlushFinishes(s: System, p: nat, status: BackendStatus) returns (actions: seq<Action>)
    requires s.lock == None && PhaseOf(s, p) == WaitsToFlush(status)
    ensures OnlyBy(p, actions)
    ensures var f := FlushAll(s.file, status, s.reg);
            Run(s, actions) == To(s.(file := f.remaining, reg := f.st), p, Idle)
  {
    hide FlushAll;
    var f := FlushAll(s.file, status, s.reg);
    var held := s.(lock := Some(p));
    var first, last := [Acquire(p), ReadFile(p)], [ReplaceFile(p), Release(p)];
    var middle := FileRuns(held, p, status, |s.file|);
    assert s.file[..|s.file|] == s.file;
    actions := first + middle + last;
    NothingFlushed(status, s.reg);
    Begins(s, p, status);
    RunAppend(s, first, middle);
    RunAppend(s, first + middle, last);
    Ends(held, p, status, f);
  }

  lemma NothingFlushed(status: BackendStatus, st: State)
    ensures FlushAll([], status, st) == Flushed([], FlushResult([], [], []), st)
  {
  }

  lemma Begins(s: System, p: nat, status: BackendStatus)
    requires s.lock == None && PhaseOf(s, p) == WaitsToFlush(status)
    ensures Run(s, [Acquire(p), ReadFile(p)])
         == FlushAt(s.(lock := Some(p)), p, status, s.file, Flushed([], FlushResult([], [], []), s.reg), 0)
  {
    var one := Do(s, Acquire(p));
    RunAppend(s, [Acquire(p)], [ReadFile(p)]);
    assert [Acquire(p)] + [ReadFile(p)] == [Acquire(p), ReadFile(p)];
    RunOne(s, Acquire(p));
    RunOne(one, ReadFile(p));
    LaterPhaseWins(s.(lock := Some(p)), p, FlushStarts(status), Flushing(status, s.file, 0, []), s.reg);
  }

  lemma Ends(held: System, p: nat, status: BackendStatus, f: Flushed)
    requires held.lock == Some(p)
    ensures Run(FlushAt(held, p, status, held.file, f, |held.file|), [ReplaceFile(p), Release(p)])
         == To(held.(file := f.remaining, reg := f.st, lock := None), p, Idle)
  {
    var now := FlushAt(held, p, status, held.file, f, |held.file|);
    var one := Do(now, ReplaceFile(p));
    RunAppend(now, [ReplaceFile(p)], [Release(p)]);
    assert [ReplaceFile(p)] + [Release(p)] == [ReplaceFile(p), Release(p)];
    RunOne(now, ReplaceFile(p));
    RunOne(one, Release(p));
    assert one.procs == held.procs[p := Leaving];
    assert held.procs[p := Leaving][p := Idle] == held.procs[p := Idle];
  }

  // ---------------------------------------------------------------- there is no other way

  /** At most one thing can happen next, and nothing when the process is idle. */
  lemma OneIsEnabled(s: System, p: nat, x: Action, y: Action)
    requires By(p, x) && By(p, y)
    ensures Do(s, x) == s || Do(s, y) == s || x == y
    ensures PhaseOf(s, p).Idle? ==> Do(s, x) == s
  {
    hide DoStep, SetStatus, MatchesBackend, RegistryRuns.Apply;
  }

  lemma {:induction false} StepsAreDetermined(s: System, p: nat, xs: seq<Action>, ys: seq<Action>)
    requires OnlyBy(p, xs) && OnlyBy(p, ys)
    requires PhaseOf(Run(s, xs), p).Idle? && PhaseOf(Run(s, ys), p).Idle?
    ensures Run(s, xs) == Run(s, ys)
    decreases |xs| + |ys|
  {
    hide Do;
    if xs != [] && Do(s, xs[0]) == s {
      StepsAreDetermined(s, p, xs[1..], ys);
    } else if ys != [] && Do(s, ys[0]) == s {
      StepsAreDetermined(s, p, xs, ys[1..]);
    } else if xs != [] {
      OneIsEnabled(s, p, xs[0], if ys == [] then xs[0] else ys[0]);
      StepsAreDetermined(Do(s, xs[0]), p, xs[1..], ys[1..]);
    } else if ys != [] {
      OneIsEnabled(s, p, ys[0], ys[0]);
    }
  }

  /**
   * Whenever a process that waits to flush while the lock is free, and is left alone, is through, the file and the
   * registry are those that the flush loop computes, and the lock is given back; and it can get through.
   */
  lemma UndisturbedFlush(s: System, p: nat, status: BackendStatus)
    requires s.lock == None && PhaseOf(s, p) == WaitsToFlush(status)
    ensures var f := FlushAll(s.file, status, s.reg);
            forall actions :: OnlyBy(p, actions) && PhaseOf(Run(s, actions), p).Idle? ==>
              Run(s, actions) == To(s.(file := f.remaining, reg := f.st), p, Idle)
    ensures exists actions :: OnlyBy(p, actions) && PhaseOf(Run(s, actions), p).Idle?
  {
    hide Run, FlushAll;
    var some := FlushFinishes(s, p, status);
    forall actions | OnlyBy(p, actions) && PhaseOf(Run(s, actions), p).Idle?
      ensures Run(s, actions) == Run(s, some)
    {
      StepsAreDetermined(s, p, actions, some);
    }
  }
}
