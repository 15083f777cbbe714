/**
 * The capture queue as a system of processes that share its file, its lock and the registry, with a crash possible
 * between any two steps and other clients writing to the registry all the while.
 */
module QueueSystem {
  import opened PyText
  import opened RegistryStore
  import opened RegistryLaws
  import opened RegistryRuns
  import opened Replay
  import opened ReplayLaws
  import opened ReplayLinks
  import opened CaptureQueues

  datatype Phase =
    | Idle
    | WaitsToEnqueue(e: Envelope)
    | Enqueuing(e: Envelope)
    | WaitsToFlush(status: BackendStatus)
    | FlushStarts(status: BackendStatus)
    | Flushing(status: BackendStatus, pending: seq<Envelope>, at: nat, remaining: seq<Envelope>)
    | Replaying(status: BackendStatus, pending: seq<Envelope>, at: nat, remaining: seq<Envelope>, k: nat, local: Local)
    | Leaving

  /** `enqueued` records the bundles whose append was completed; nothing reads it. */
  datatype System = System(file: seq<Envelope>, lock: Option<nat>, procs: map<nat, Phase>, reg: State,
                           enqueued: multiset<Bundle>)

  datatype Action =
    | CallEnqueue(p: nat, e: Envelope)
    | CallFlush(p: nat, status: BackendStatus)
    | Acquire(p: nat)
    | Append(p: nat)
    | ReadFile(p: nat)
    | SkipOne(p: nat)
    | BeginReplay(p: nat)
    | Transact(p: nat)
    | FinishReplay(p: nat)
    | ReplaceFile(p: nat)
    | Release(p: nat)
    | Crash(p: nat)
    | OtherClient(op: Op)

  function PhaseOf(s: System, p: nat): Phase {
    if p in s.procs then s.procs[p] else Idle
  }

  predicate Holds(phase: Phase) {
    phase.Enqueuing? || phase.FlushStarts? || phase.Flushing? || phase.Replaying? || phase.Leaving?
  }

  function To(s: System, p: nat, phase: Phase): System {
    s.(procs := s.procs[p := phase])
  }

  /** What an action does; an action that is not enabled does nothing. */
  ghost function Do(s: System, action: Action): System {
    match action
    case CallEnqueue(p, e) => if PhaseOf(s, p).Idle? then To(s, p, WaitsToEnqueue(e)) else s
    case CallFlush(p, status) => if PhaseOf(s, p).Idle? then To(s, p, WaitsToFlush(status)) else s
    case Acquire(p) =>
      if s.lock != None then s
      else
        (match PhaseOf(s, p)
         case WaitsToEnqueue(e) => To(s.(lock := Some(p)), p, Enqueuing(e))
         case WaitsToFlush(status) => To(s.(lock := Some(p)), p, FlushStarts(status))
         case _ => s)
    case Append(p) =>
      (match PhaseOf(s, p)
       case Enqueuing(e) => To(s.(file := s.file + [e], enqueued := s.enqueued + multiset{e.bundle}), p, Leaving)
       case _ => s)
    case ReadFile(p) =>
      (match PhaseOf(s, p)
       case FlushStarts(status) => To(s, p, Flushing(status, s.file, 0, []))
       case _ => s)
    case SkipOne(p) =>
      (match PhaseOf(s, p)
       case Flushing(status, pending, at, remaining) =>
         if at < |pending| && !MatchesBackend(pending[at], status) then
           To(s, p, Flushing(status, pending, at + 1, remaining + [pending[at]]))
         else s
       case _ => s)
    case BeginReplay(p) =>
      (match PhaseOf(s, p)
       case Flushing(status, pending, at, remaining) =>
         if at < |pending| && MatchesBackend(pending[at], status) then
           To(s, p, Replaying(status, pending, at, remaining, 0, START))
         else s
       case _ => s)
    case Transact(p) => DoTransact(s, p)
    case FinishReplay(p) =>
      (match PhaseOf(s, p)
       case Replaying(status, pending, at, remaining, k, local) =>
         if at < |pending| && k == Length(pending[at].bundle) then
           To(s.(reg := s.reg.(rows := SetStatus(s.reg.rows, local.question, Answered))), p,
              Flushing(status, pending, at + 1, remaining))
         else s
       case _ => s)
    case ReplaceFile(p) =>
      (match PhaseOf(s, p)
       case Flushing(status, pending, at, remaining) =>
         if at == |pending| then To(s.(file := remaining), p, Leaving) else s
       case _ => s)
    case Release(p) => if PhaseOf(s, p).Leaving? then To(s.(lock := None), p, Idle) else s
    case Crash(p) => To(if s.lock == Some(p) then s.(lock := None) else s, p, Idle)
    case OtherClient(op) => s.(reg := Apply(s.reg, op))
  }

  /** One transaction of a replay; if it fails the envelope is kept and its failure counted. */
  ghost function DoTransact(s: System, p: nat): System {
    var phase := PhaseOf(s, p);
    if !phase.Replaying? || phase.at >= |phase.pending| || phase.k >= Length(phase.pending[phase.at].bundle) then s
    else
      var e := phase.pending[phase.at];
      var a := DoStep(e.bundle, StepAt(e.bundle, phase.k), Attempt(s.reg, phase.local, false));
      if a.failed then
        To(s.(reg := a.st), p,
           Flushing(phase.status, phase.pending, phase.at + 1, phase.remaining + [Retried(e, FAILED)]))
      else To(s.(reg := a.st), p, phase.(k := phase.k + 1, local := a.local))
  }

  ghost function Run(s: System, actions: seq<Action>): System
    decreases |actions|
  {
    if actions == [] then s else Run(Do(s, actions[0]), actions[1..])
  }

  const INITIAL := System([], None, map[], EMPTY, multiset{})

  // ---------------------------------------------------------------- the invariant

  /** What is in `more` but not in `less` is in the registry. */
  ghost predicate MissingAreStored(less: multiset<Bundle>, more: multiset<Bundle>, rows: Rows) {
    less <= more && forall b :: less[b] < more[b] ==> FullyStored(b, rows)
  }

  ghost predicate PhaseHolds(s: System, phase: Phase) {
    phase.Flushing? || phase.Replaying? ==>
      && phase.pending == s.file && phase.at <= |s.file|
      && MissingAreStored(Bundles(phase.remaining), Bundles(s.file[..phase.at]), s.reg.rows)
      && (phase.Replaying? ==>
            && phase.at < |s.file| && phase.k <= Length(s.file[phase.at].bundle)
            && StoredUpTo(s.file[phase.at].bundle, phase.k, s.reg.rows))
  }

  ghost predicate Inv(s: System) {
    && Valid(s.reg)
    && (forall p: nat :: Holds(PhaseOf(s, p)) ==> s.lock == Some(p))
    && (forall p: nat :: PhaseHolds(s, PhaseOf(s, p)))
    && MissingAreStored(Bundles(s.file), s.enqueued, s.reg.rows)
  }

  lemma MissingSurvive(less: multiset<Bundle>, more: multiset<Bundle>, old_: Rows, new_: Rows)
    requires Extends(old_, new_) && MissingAreStored(less, more, old_)
    ensures MissingAreStored(less, more, new_)
  {
    forall b | less[b] < more[b] ensures FullyStored(b, new_) {
      StoredSurvives(b, Length(b), old_, new_);
    }
  }

  /** Whatever anyone does to the registry with its operations, what is known to be stored stays stored. */
  lemma {:induction false} RegistryMayGrow(s: System, reg: State)
    requires Inv(s) && Valid(reg) && Extends(s.reg.rows, reg.rows)
    ensures Inv(s.(reg := reg))
  {
    hide Valid, Extends, FullyStored, StoredUpTo;
    var s' := s.(reg := reg);
    MissingSurvive(Bundles(s.file), s.enqueued, s.reg.rows, reg.rows);
    forall p: nat ensures PhaseHolds(s', PhaseOf(s', p)) {
      var phase := PhaseOf(s, p);
      assert PhaseHolds(s, phase);
      if phase.Flushing? || phase.Replaying? {
        MissingSurvive(Bundles(phase.remaining), Bundles(s.file[..phase.at]), s.reg.rows, reg.rows);
      }
      if phase.Replaying? {
        StoredSurvives(s.file[phase.at].bundle, phase.k, s.reg.rows, reg.rows);
      }
    }
  }

  /** A process may change its phase if the new one holds no more than it is entitled to and is right about the file. */
  lemma PhaseMayChange(s: System, p: nat, phase: Phase)
    requires Inv(s) && PhaseHolds(s, phase) && (Holds(phase) ==> s.lock == Some(p))
    ensures Inv(To(s, p, phase))
  {
  }

  /** Only the holder of the lock is in the middle of anything, so it may rewrite the file on its way out. */
  lemma HolderMayWrite(s: System, p: nat, file: seq<Envelope>, enqueued: multiset<Bundle>)
    requires Inv(s) && Holds(PhaseOf(s, p)) && MissingAreStored(Bundles(file), enqueued, s.reg.rows)
    ensures Inv(To(s.(file := file, enqueued := enqueued), p, Leaving))
  {
    hide Valid, MissingAreStored, StoredUpTo;
    var s' := To(s.(file := file, enqueued := enqueued), p, Leaving);
    forall q: nat ensures PhaseHolds(s', PhaseOf(s', q)) && (Holds(PhaseOf(s', q)) ==> s'.lock == Some(q)) {
      assert PhaseOf(s', q) == if q == p then Leaving else PhaseOf(s, q);
      assert q != p ==> !Holds(PhaseOf(s, q));
    }
  }

  /** The lock changes hands only when nobody else is in the middle of anything. */
  lemma LockMayMove(s: System, p: nat, lock: Option<nat>, phase: Phase)
    requires Inv(s) && (s.lock == None || s.lock == Some(p))
    requires PhaseHolds(s, phase) && (Holds(phase) ==> lock == Some(p))
    ensures Inv(To(s.(lock := lock), p, phase))
  {
  }

  // ---------------------------------------------------------------- every action keeps it

  lemma OneMoreMissing(less: multiset<Bundle>, more: multiset<Bundle>, b: Bundle, rows: Rows)
    requires MissingAreStored(less, more, rows)
    ensures MissingAreStored(less + multiset{b}, more + multiset{b}, rows)
    ensures FullyStored(b, rows) ==> MissingAreStored(less, more + multiset{b}, rows)
  {
  }

  lemma NothingMissing(all: multiset<Bundle>, rows: Rows)
    ensures MissingAreStored(all, all, rows)
  {
  }

  lemma MissingCompose(a: multiset<Bundle>, b: multiset<Bundle>, c: multiset<Bundle>, rows: Rows)
    requires MissingAreStored(a, b, rows) && MissingAreStored(b, c, rows)
    ensures MissingAreStored(a, c, rows)
  {
  }

  lemma AppendKeeps(s: System, p: nat)
    requires Inv(s)
    ensures Inv(Do(s, Append(p)))
  {
    hide Valid, MissingAreStored, PhaseHolds;
    var phase := PhaseOf(s, p);
    if phase.Enqueuing? {
      BundlesAppend(s.file, [phase.e]);
      OneBundle(phase.e);
      OneMoreMissing(Bundles(s.file), s.enqueued, phase.e.bundle, s.reg.rows);
      HolderMayWrite(s, p, s.file + [phase.e], s.enqueued + multiset{phase.e.bundle});
    }
  }

  lemma ReplaceKeeps(s: System, p: nat)
    requires Inv(s)
    ensures Inv(Do(s, ReplaceFile(p)))
  {
    hide Valid, MissingAreStored;
    var phase := PhaseOf(s, p);
    assert PhaseHolds(s, phase);
    if phase.Flushing? && phase.at == |phase.pending| {
      assert s.file[..phase.at] == s.file;
      MissingCompose(Bundles(phase.remaining), Bundles(s.file), s.enqueued, s.reg.rows);
      HolderMayWrite(s, p, phase.remaining, s.enqueued);
    }
  }

  /** Passing one envelope on, either kept for later or, if its bundle is fully stored, dropped. */
  lemma PassOn(s: System, p: nat, remaining: seq<Envelope>)
    requires Inv(s)
    requires var phase := PhaseOf(s, p);
             && (phase.Flushing? || phase.Replaying?) && phase.at < |s.file|
             && ((remaining == phase.remaining && FullyStored(s.file[phase.at].bundle, s.reg.rows))
                 || exists e: Envelope :: e.bundle == s.file[phase.at].bundle && remaining == phase.remaining + [e])
    ensures var phase := PhaseOf(s, p); Inv(To(s, p, Flushing(phase.status, phase.pending, phase.at + 1, remaining)))
  {
    hide Valid, FullyStored, MissingAreStored, StoredUpTo;
    var phase := PhaseOf(s, p);
    assert PhaseHolds(s, phase);
    var b := s.file[phase.at].bundle;
    var before := Bundles(s.file[..phase.at]);
    assert s.file[..phase.at + 1] == s.file[..phase.at] + [s.file[phase.at]];
    BundlesAppend(s.file[..phase.at], [s.file[phase.at]]);
    OneBundle(s.file[phase.at]);
    OneMoreMissing(Bundles(phase.remaining), before, b, s.reg.rows);
    if remaining != phase.remaining {
      var e: Envelope :| e.bundle == b && remaining == phase.remaining + [e];
      BundlesAppend(phase.remaining, [e]);
      OneBundle(e);
    }
    PhaseMayChange(s, p, Flushing(phase.status, phase.pending, phase.at + 1, remaining));
  }

  lemma {:induction false} TransactKeeps(s: System, p: nat)
    requires Inv(s)
    ensures Inv(DoTransact(s, p))
  {
    hide Valid, Extends, DoStep, StoredUpTo, MissingAreStored, StepAt;
    var phase := PhaseOf(s, p);
    assert PhaseHolds(s, phase);
    if phase.Replaying? && phase.k < Length(s.file[phase.at].bundle) {
      var b := s.file[phase.at].bundle;
      var before := Attempt(s.reg, phase.local, false);
      var a := DoStep(b, StepAt(b, phase.k), before);
      StepIsInBundle(b, phase.k);
      StepKeeps(b, StepAt(b, phase.k), before);
      var s' := s.(reg := a.st);
      RegistryMayGrow(s, a.st);
      if a.failed {
        PassOn(s', p, phase.remaining + [Retried(s.file[phase.at], FAILED)]);
      } else {
        assert PhaseHolds(s', PhaseOf(s', p));
        TransactionStores(b, phase.k, before);
        PhaseMayChange(s', p, phase.(k := phase.k + 1, local := a.local));
      }
    }
  }

  lemma FinishKeeps(s: System, p: nat)
    requires Inv(s)
    ensures Inv(Do(s, FinishReplay(p)))
  {
    hide Valid, Extends, StoredUpTo, MissingAreStored, SetStatus;
    var phase := PhaseOf(s, p);
    assert PhaseHolds(s, phase);
    if phase.Replaying? && phase.k == Length(s.file[phase.at].bundle) {
      var reg := s.reg.(rows := SetStatus(s.reg.rows, phase.local.question, Answered));
      StatusKeeps(s.reg, phase.local.question, Answered);
      RegistryMayGrow(s, reg);
      var s' := s.(reg := reg);
      assert PhaseHolds(s', PhaseOf(s', p));
      PassOn(s', p, phase.remaining);
    }
  }

  lemma WalkKeeps(s: System, p: nat, action: Action)
    requires Inv(s) && (action == ReadFile(p) || action == SkipOne(p) || action == BeginReplay(p))
    ensures Inv(Do(s, action))
  {
    hide Valid, MissingAreStored;
    var phase := PhaseOf(s, p);
    assert PhaseHolds(s, phase);
    if phase.FlushStarts? && action == ReadFile(p) {
      assert s.file[..0] == [];
      NothingMissing(Bundles([]), s.reg.rows);
      PhaseMayChange(s, p, Flushing(phase.status, s.file, 0, []));
    } else if phase.Flushing? && phase.at < |phase.pending| {
      var e := s.file[phase.at];
      if action == SkipOne(p) && !MatchesBackend(e, phase.status) {
        PassOn(s, p, phase.remaining + [e]);
      } else if action == BeginReplay(p) && MatchesBackend(e, phase.status) {
        PhaseMayChange(s, p, Replaying(phase.status, phase.pending, phase.at, phase.remaining, 0, START));
      }
    }
  }

  lemma {:induction false} DoKeeps(s: System, action: Action)
    requires Inv(s)
    ensures Inv(Do(s, action))
  {
    hide Inv, Apply, SetStatus, DoTransact, MatchesBackend;
    match action
    case CallEnqueue(p, e) => if PhaseOf(s, p).Idle? { PhaseMayChange(s, p, WaitsToEnqueue(e)); }
    case CallFlush(p, status) => if PhaseOf(s, p).Idle? { PhaseMayChange(s, p, WaitsToFlush(status)); }
    case Acquire(p) =>
      if s.lock == None {
        match PhaseOf(s, p)
        case WaitsToEnqueue(e) => LockMayMove(s, p, Some(p), Enqueuing(e));
        case WaitsToFlush(status) => LockMayMove(s, p, Some(p), FlushStarts(status));
        case _ =>
      }
    case Append(p) => AppendKeeps(s, p);
    case ReadFile(p) => WalkKeeps(s, p, action);
    case SkipOne(p) => WalkKeeps(s, p, action);
    case BeginReplay(p) => WalkKeeps(s, p, action);
    case Transact(p) => TransactKeeps(s, p);
    case FinishReplay(p) => FinishKeeps(s, p);
    case ReplaceFile(p) => ReplaceKeeps(s, p);
    case Release(p) =>
      if PhaseOf(s, p).Leaving? {
        HolderHasTheLock(s, p);
        LockMayMove(s, p, None, Idle);
      }
    case Crash(p) =>
      if s.lock == Some(p) {
        LockMayMove(s, p, None, Idle);
      } else {
        PhaseMayChange(s, p, Idle);
      }
    case OtherClient(op) =>
      RegistryIsValid(s);
      ApplyKeeps(s.reg, op);
      RegistryMayGrow(s, Apply(s.reg, op));
  }

  lemma HolderHasTheLock(s: System, p: nat)
    requires Inv(s) && Holds(PhaseOf(s, p))
    ensures s.lock == Some(p)
  {
  }

  lemma RegistryIsValid(s: System)
    requires Inv(s)
    ensures Valid(s.reg)
  {
  }

  lemma {:induction false} RunKeepsInv(s: System, actions: seq<Action>)
    requires Inv(s)
    ensures Inv(Run(s, actions))
    decreases |actions|
  {
    hide Inv, Do;
    if actions != [] {
      DoKeeps(s, actions[0]);
      RunKeepsInv(Do(s, actions[0]), actions[1..]);
    }
  }

  /**
   * No envelope is lost: under any interleaving of enqueuers, flushers and other clients, with crashes between any two
   * steps, every bundle whose append completed is in the queue file or fully replayed into the registry, and the file
   * holds nothing that was not enqueued.
   */
  lemma NoEnvelopeIsLost(actions: seq<Action>, b: Bundle)
    ensures var s := Run(INITIAL, actions);
            Bundles(s.file)[b] <= s.enqueued[b] && (Bundles(s.file)[b] < s.enqueued[b] ==> FullyStored(b, s.reg.rows))
  {
    hide Run, Bundles;
    InitialInv();
    RunKeepsInv(INITIAL, actions);
    assert MissingAreStored(Bundles(Run(INITIAL, actions).file), Run(INITIAL, actions).enqueued,
        Run(INITIAL, actions).reg.rows);
  }

  lemma InitialInv()
    ensures Inv(INITIAL)
  {
  }

  /** Two processes are never both between taking and giving back the lock. */
  lemma MutualExclusion(actions: seq<Action>, p: nat, q: nat)
    requires var s := Run(INITIAL, actions); Holds(PhaseOf(s, p)) && Holds(PhaseOf(s, q))
    ensures p == q
  {
    InitialInv();
    RunKeepsInv(INITIAL, actions);
    HolderHasTheLock(Run(INITIAL, actions), p);
    HolderHasTheLock(Run(INITIAL, actions), q);
  }

  /** However often a bundle is replayed, and whoever replays it, each of its keys is carried by one row at most. */
  lemma EffectIsOnce(actions: seq<Action>, b: Bundle, table: Table, raw: string, x: nat, y: nat)
    requires var rows := Run(INITIAL, actions).reg.rows; Keyed(b, rows, table, raw, x) && Keyed(b, rows, table, raw, y)
    ensures x == y
  {
    InitialInv();
    RunKeepsInv(INITIAL, actions);
    KeyedIsUnique(b, Run(INITIAL, actions).reg, table, raw, x, y);
  }
}
