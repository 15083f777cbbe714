/** What other clients and crashes cannot do to the links of a bundle whose keys are its own. */
module QueueLinks {
  import opened PyText
  import opened ScopedKeys
  import opened RegistryStore
  import opened RegistryLaws
  import RegistryRuns
  import opened Replay
  import opened ReplayLaws
  import opened ReplayLinks
  import opened CaptureQueues
  import opened QueueSystem

  // ---------------------------------------------------------------- linked rows

  /** Every claim and report that carries a key of the bundle links what the bundle says. */
  ghost predicate Linked(b: Bundle, rows: Rows) {
    && (forall j: nat, id: nat :: IsFirst(b, j) && Keyed(b, rows, Claims, ClaimKey(b, b.findings[j].tempId), id)
          ==> ClaimLinks(b, rows, b.findings[j], id))
    && (forall id: nat :: Keyed(b, rows, Reports, ReportKey(b), id) ==> ReportLinks(b, rows, id))
  }

  /** No claim or report was added under a key of the bundle. */
  ghost predicate LeavesKeys(b: Bundle, old_: Rows, new_: Rows) {
    && (forall j: nat, id: nat :: IsFirst(b, j) && Keyed(b, new_, Claims, ClaimKey(b, b.findings[j].tempId), id)
          ==> Ref(Claims, id) in old_)
    && (forall id: nat :: Keyed(b, new_, Reports, ReportKey(b), id) ==> Ref(Reports, id) in old_)
  }

  lemma KeyedWasKeyed(b: Bundle, old_: Rows, new_: Rows, table: Table, raw: string, id: nat)
    requires Extends(old_, new_) && Keyed(b, new_, table, raw, id) && Ref(table, id) in old_
    ensures Keyed(b, old_, table, raw, id)
  {
    FixedDecides(old_[Ref(table, id)], new_[Ref(table, id)]);
  }

  lemma ClaimLinksSurvive(b: Bundle, old_: Rows, new_: Rows, f: Finding, id: nat)
    requires Extends(old_, new_) && ClaimLinks(b, old_, f, id)
    ensures ClaimLinks(b, new_, f, id)
  {
    hide Keyed, Extends, ExcerptKey;
    ExtendsKeepsRow(old_, new_, Ref(Claims, id));
    var links := old_[Ref(Claims, id)].body.excerpts;
    forall p | 0 <= p < |links| {
      KeyedSurvives(b, old_, new_, Excerpts, ExcerptKey(b, f.annotations[p]), links[p]);
    }
  }

  lemma LeavingKeysKeepsLinked(b: Bundle, old_: Rows, new_: Rows)
    requires Extends(old_, new_) && Linked(b, old_) && LeavesKeys(b, old_, new_)
    ensures Linked(b, new_)
  {
    hide Keyed, Extends, ClaimKey, ReportKey, ClaimLinks, ReportLinks;
    forall j: nat, id: nat | IsFirst(b, j) && Keyed(b, new_, Claims, ClaimKey(b, b.findings[j].tempId), id)
      ensures ClaimLinks(b, new_, b.findings[j], id)
    {
      KeyedWasKeyed(b, old_, new_, Claims, ClaimKey(b, b.findings[j].tempId), id);
      ClaimLinksSurvive(b, old_, new_, b.findings[j], id);
    }
    forall id: nat | Keyed(b, new_, Reports, ReportKey(b), id) ensures ReportLinks(b, new_, id) {
      KeyedWasKeyed(b, old_, new_, Reports, ReportKey(b), id);
      ReportSurvives(b, old_, new_, id);
    }
  }

  lemma FrozenLeavesKeys(b: Bundle, old_: Rows, new_: Rows)
    requires Frozen(Claims, old_, new_) && Frozen(Reports, old_, new_)
    ensures LeavesKeys(b, old_, new_)
  {
  }

  // ---------------------------------------------------------------- the bundle's own transactions

  /** The claim step: a claim that is new links the excerpts the attempt has learned; the others are as they were. */
  lemma ClaimStepKeepsLinked(b: Bundle, k: nat, a: Attempt)
    requires k < Length(b) && Valid(a.st) && Known(b, a) && Linked(b, a.st.rows) && StoredUpTo(b, k, a.st.rows)
    requires "queue_" <= b.queueId && StepAt(b, k).ClaimStep? && !DoStep(b, StepAt(b, k), a).failed
    ensures Linked(b, DoStep(b, StepAt(b, k), a).st.rows)
  {
    hide Valid, Extends, DoStep, Keyed, ClaimKey, ReportKey, RowOf, ClaimLinks, ReportLinks, BodyOf, Frozen, Known,
        StoredUpTo;
    var step := StepAt(b, k);
    var f := step.f;
    var rows, next := a.st.rows, DoStep(b, step, a).st.rows;
    StepIsInBundle(b, k);
    StepKeeps(b, step, a);
    StepLeavesKey(b, step, a);
    ClaimStepKey(b, f);
    var id :| Keyed(b, next, Claims, ClaimKey(b, b.findings[f].tempId), id)
              && ((Keyed(b, rows, Claims, ClaimKey(b, b.findings[f].tempId), id) && next == rows)
                  || next == rows[Ref(Claims, id) := RowOf(b, step, BodyOf(b, step, rows, a.local).value)]);
    forall j: nat, x: nat | IsFirst(b, j) && Keyed(b, next, Claims, ClaimKey(b, b.findings[j].tempId), x)
      ensures ClaimLinks(b, next, b.findings[j], x)
    {
      if Ref(Claims, x) in rows {
        KeyedWasKeyed(b, rows, next, Claims, ClaimKey(b, b.findings[j].tempId), x);
        ClaimLinksSurvive(b, rows, next, b.findings[j], x);
      } else {
        KeyedIsThere(b, rows, next, Claims, ClaimKey(b, b.findings[f].tempId), ClaimKey(b, b.findings[j].tempId),
                     id, x);
        assert x == id;
        SameKeySameName(b, next, f, j, x);
        FirstClaimWasStored(b, k, rows, f, j);
        if j < f {
          var y :| Keyed(b, rows, Claims, ClaimKey(b, b.findings[j].tempId), y);
          KeyedIsThere(b, rows, next, Claims, ClaimKey(b, b.findings[j].tempId), ClaimKey(b, b.findings[j].tempId),
                       y, x);
          KeyedSurvives(b, rows, next, Claims, ClaimKey(b, b.findings[j].tempId), y);
          KeyedIsUnique(b, DoStep(b, step, a).st, Claims, ClaimKey(b, b.findings[j].tempId), y, x);
        }
        assert j == f;
        NewClaimIsLinked(b, a, f, next, id);
        StoredIsLinked(b, DoStep(b, step, a).st, f, id);
      }
    }
    forall x: nat | Keyed(b, next, Reports, ReportKey(b), x) ensures ReportLinks(b, next, x) {
      FrozenHolds(b, rows, next, Reports, ReportKey(b), x);
      KeyedWasKeyed(b, rows, next, Reports, ReportKey(b), x);
      ReportSurvives(b, rows, next, x);
    }
  }

  lemma FrozenHolds(b: Bundle, old_: Rows, new_: Rows, table: Table, raw: string, id: nat)
    requires Frozen(table, old_, new_) && Keyed(b, new_, table, raw, id)
    ensures Ref(table, id) in old_
  {
  }

  lemma KeyedIsThere(b: Bundle, old_: Rows, new_: Rows, table: Table, x: string, y: string, i: nat, j: nat)
    requires Keyed(b, new_, table, y, j)
    ensures Ref(table, j) in new_
    ensures Keyed(b, old_, table, x, i) ==> Ref(table, i) in old_
  {
  }

  lemma SameKeySameName(b: Bundle, rows: Rows, f: nat, j: nat, id: nat)
    requires f < |b.findings| && j < |b.findings| && "queue_" <= b.queueId
    requires Keyed(b, rows, Claims, ClaimKey(b, b.findings[f].tempId), id)
    requires Keyed(b, rows, Claims, ClaimKey(b, b.findings[j].tempId), id)
    ensures b.findings[f].tempId == b.findings[j].tempId
  {
    hide ClaimKey;
    if b.findings[f].tempId != b.findings[j].tempId {
      ClaimKeysAreApart(b, b.findings[f].tempId, b.findings[j].tempId);
    }
  }

  /** An earlier finding's claim is stored by the time a later one is dealt with. */
  lemma FirstClaimWasStored(b: Bundle, k: nat, rows: Rows, f: nat, j: nat)
    requires k < Length(b) && StoredUpTo(b, k, rows) && StepAt(b, k) == ClaimStep(f) && j < |b.findings|
    ensures j < f ==> exists id :: Keyed(b, rows, Claims, ClaimKey(b, b.findings[j].tempId), id)
  {
    hide Keyed;
    if j < f {
      var i := 3 + 2 * |b.annotations| + j;
      assert i < k && StepAt(b, i) == ClaimStep(j);
      ClaimStepKey(b, j);
      assert StepStored(b, i, rows);
    }
  }

  lemma StoredIsLinked(b: Bundle, st: State, j: nat, id: nat)
    requires Valid(st) && j < |b.findings| && ClaimStored(b, st.rows, j)
    requires Keyed(b, st.rows, Claims, ClaimKey(b, b.findings[j].tempId), id)
    ensures ClaimLinks(b, st.rows, b.findings[j], id)
  {
    hide Valid, Keyed, ClaimLinks, ClaimKey;
    var raw := ClaimKey(b, b.findings[j].tempId);
    var x :| Keyed(b, st.rows, Claims, raw, x) && ClaimLinks(b, st.rows, b.findings[j], x);
    KeyedIsUnique(b, st, Claims, raw, x, id);
  }

  /** The report step: a report that is new links the claims the attempt has learned. */
  lemma ReportStepKeepsLinked(b: Bundle, k: nat, a: Attempt)
    requires k < Length(b) && Valid(a.st) && Known(b, a) && Linked(b, a.st.rows)
    requires StepAt(b, k).ReportStep? && !DoStep(b, StepAt(b, k), a).failed
    ensures Linked(b, DoStep(b, StepAt(b, k), a).st.rows)
  {
    hide Valid, Extends, DoStep, Keyed, ClaimKey, RowOf, ClaimLinks, ReportLinks, BodyOf, Frozen, Known, ReportKey;
    var rows, next := a.st.rows, DoStep(b, ReportStep, a).st.rows;
    StepIsInBundle(b, k);
    StepKeeps(b, ReportStep, a);
    StepLeavesKey(b, ReportStep, a);
    LastStepReports(b, a.local);
    var id :| Keyed(b, next, Reports, ReportKey(b), id)
              && ((Keyed(b, rows, Reports, ReportKey(b), id) && next == rows)
                  || next == rows[Ref(Reports, id) := RowOf(
                       b, ReportStep, BodyOf(b, ReportStep, rows, a.local).value)]);
    forall j: nat, x: nat | IsFirst(b, j) && Keyed(b, next, Claims, ClaimKey(b, b.findings[j].tempId), x)
      ensures ClaimLinks(b, next, b.findings[j], x)
    {
      FrozenHolds(b, rows, next, Claims, ClaimKey(b, b.findings[j].tempId), x);
      KeyedWasKeyed(b, rows, next, Claims, ClaimKey(b, b.findings[j].tempId), x);
      ClaimLinksSurvive(b, rows, next, b.findings[j], x);
    }
    forall x: nat | Keyed(b, next, Reports, ReportKey(b), x) ensures ReportLinks(b, next, x) {
      KeyedIsUnique(b, DoStep(b, ReportStep, a).st, Reports, ReportKey(b), x, id);
      if next == rows {
      } else {
        NewReportIsLinked(b, a, next, id);
      }
    }
  }

  lemma NewReportIsLinked(b: Bundle, a: Attempt, next: Rows, id: nat)
    requires Known(b, a) && Extends(a.st.rows, next) && BodyOf(b, ReportStep, a.st.rows, a.local).Ok?
    requires next == a.st.rows[Ref(Reports, id) := RowOf(
        b, ReportStep, BodyOf(b, ReportStep, a.st.rows, a.local).value)]
    ensures ReportLinks(b, next, id)
  {
    hide Keyed, Extends, ClaimKey;
    KnownSurvives(b, a, next);
    var temps := b.report.findings;
    var links := next[Ref(Reports, id)].body.claims;
    assert Ids(a.local.claims, temps) == Ok(links);
    assert forall p :: 0 <= p < |temps| ==> temps[p] in a.local.claims && links[p] == a.local.claims[temps[p]];
  }

  lemma OwnStepKeepsLinked(b: Bundle, k: nat, a: Attempt)
    requires k < Length(b) && Valid(a.st) && Known(b, a) && Linked(b, a.st.rows) && StoredUpTo(b, k, a.st.rows)
    requires "queue_" <= b.queueId && !DoStep(b, StepAt(b, k), a).failed
    ensures Linked(b, DoStep(b, StepAt(b, k), a).st.rows)
  {
    hide Valid, Extends, DoStep, Linked, Known, StoredUpTo, Frozen;
    var step := StepAt(b, k);
    if step.ClaimStep? {
      ClaimStepKeepsLinked(b, k, a);
    } else if step.ReportStep? {
      ReportStepKeepsLinked(b, k, a);
    } else {
      StepIsInBundle(b, k);
      StepKeeps(b, step, a);
      FrozenLeavesKeys(b, a.st.rows, DoStep(b, step, a).st.rows);
      LeavingKeysKeepsLinked(b, a.st.rows, DoStep(b, step, a).st.rows);
    }
  }

  // ---------------------------------------------------------------- other bundles

  /** Neither queue id begins the other, as with ids of one length; both were made by the queue. */
  predicate Apart(b: Bundle, other: Bundle) {
    "queue_" <= b.queueId && "queue_" <= other.queueId && !(b.queueId <= other.queueId) && !(other.queueId <= b.queueId)
  }

  lemma ApartKeysDiffer(b: Bundle, other: Bundle, x: string, y: string)
    requires Apart(b, other) && b.queueId <= x && other.queueId <= y
    ensures Scoped(Some(x), b.ns) != Scoped(Some(y), other.ns)
  {
    if Scoped(Some(x), b.ns) == Scoped(Some(y), other.ns) {
      QueueKeysAreRaw(b, x);
      QueueKeysAreRaw(other, y);
      ScopedKeysNeverCollide(Some(x), b.ns, Some(y), other.ns);
      ScopingIsInjective(x, y, b.ns);
      BothBegin(b.queueId, other.queueId, x);
    }
  }

  lemma QueueKeysAreRaw(b: Bundle, x: string)
    requires "queue_" <= b.queueId && b.queueId <= x
    ensures x != "" && forall ns: Namespace :: !(Prefix(ns) <= x)
    ensures Scoped(Some(x), b.ns).Some?
  {
    assert x[0] == 'q' && forall ns: Namespace :: Prefix(ns)[0] == 'n';
  }

  lemma BothBegin(x: string, y: string, s: string)
    requires x <= s && y <= s
    ensures x <= y || y <= x
  {
    assert x == s[..|x|] && y == s[..|y|];
  }

  /** A transaction of another bundle adds nothing under this bundle's keys. */
  lemma ApartLeavesKeys(b: Bundle, other: Bundle, step: Step, a: Attempt)
    requires Apart(b, other) && InBundle(other, step) && Valid(a.st)
    ensures LeavesKeys(b, a.st.rows, DoStep(other, step, a).st.rows)
  {
    hide Valid, Extends, DoStep, RowOf, BodyOf, Frozen;
    var rows, next := a.st.rows, DoStep(other, step, a).st.rows;
    StepKeeps(other, step, a);
    if DoStep(other, step, a).failed {
      FailedStepWritesNothing(other, step, a);
      UnchangedLeavesKeys(b, rows);
    } else if step.ClaimStep? || step.ReportStep? {
      StepLeavesKey(other, step, a);
      var table, raw := StepTable(step), KeyOf(other, step);
      KeyIsTheBundles(other, step);
      var id :|
        next == rows || next == rows[Ref(table, id) := RowOf(other, step, BodyOf(other, step, rows, a.local).value)];
      OneRowLeavesKeys(b, other, step, rows, next, id, BodyOf(other, step, rows, a.local).value);
    } else {
      FrozenLeavesKeys(b, rows, next);
    }
  }

  lemma UnchangedLeavesKeys(b: Bundle, rows: Rows)
    ensures LeavesKeys(b, rows, rows)
  {
  }

  lemma KeyIsTheBundles(b: Bundle, step: Step)
    requires InBundle(b, step) && (step.ClaimStep? || step.ReportStep?)
    ensures b.queueId <= KeyOf(b, step)
  {
  }

  lemma OneRowLeavesKeys(b: Bundle, other: Bundle, step: Step, old_: Rows, new_: Rows, id: nat, body: Body)
    requires Apart(b, other) && InBundle(other, step) && (step.ClaimStep? || step.ReportStep?)
    requires new_ == old_ || new_ == old_[Ref(StepTable(step), id) := RowOf(other, step, body)]
    ensures LeavesKeys(b, old_, new_)
  {
    hide ClaimKey, ReportKey, KeyOf;
    KeyIsTheBundles(other, step);
    forall j: nat | j < |b.findings|
      ensures b.queueId <= ClaimKey(b, b.findings[j].tempId)
      ensures Scoped(Some(ClaimKey(b, b.findings[j].tempId)), b.ns) != Scoped(Some(KeyOf(other, step)), other.ns)
    {
      OwnKeys(b, b.findings[j].tempId);
      ApartKeysDiffer(b, other, ClaimKey(b, b.findings[j].tempId), KeyOf(other, step));
    }
    OwnKeys(b, "");
    ApartKeysDiffer(b, other, ReportKey(b), KeyOf(other, step));
  }

  lemma OwnKeys(b: Bundle, temp: string)
    ensures b.queueId <= ClaimKey(b, temp) && b.queueId <= ReportKey(b)
  {
  }

  // ---------------------------------------------------------------- the system

  predicate Friendly(b: Bundle, other: Bundle) { other == b || Apart(b, other) }

  predicate AllFriendly(b: Bundle, file: seq<Envelope>) {
    forall i :: 0 <= i < |file| ==> Friendly(b, file[i].bundle)
  }

  /** A process has only such envelopes in hand, and knows rows of the bundle only by their keys. */
  ghost predicate PhaseIsFair(b: Bundle, reg: State, phase: Phase) {
    match phase
    case WaitsToEnqueue(e) => Friendly(b, e.bundle)
    case Enqueuing(e) => Friendly(b, e.bundle)
    case Flushing(_, pending, _, remaining) => AllFriendly(b, pending) && AllFriendly(b, remaining)
    case Replaying(_, pending, at, remaining, _, local) =>
      && AllFriendly(b, pending) && AllFriendly(b, remaining)
      && (at < |pending| && pending[at].bundle == b ==> Known(b, Attempt(reg, local, false)))
    case _ => true
  }

  ghost predicate Fair(b: Bundle, s: System) {
    && Linked(b, s.reg.rows) && AllFriendly(b, s.file)
    && forall p: nat :: PhaseIsFair(b, s.reg, PhaseOf(s, p))
  }

  /**
   * Nobody but the replays of the bundle uses its keys: other bundles have ids apart, other clients leave its keys
   * alone.
   */
  ghost predicate Polite(b: Bundle, s: System, action: Action) {
    match action
    case CallEnqueue(_, e) => Friendly(b, e.bundle)
    case OtherClient(op) => LeavesKeys(b, s.reg.rows, RegistryRuns.Apply(s.reg, op).rows)
    case _ => true
  }

  ghost predicate PoliteRun(b: Bundle, s: System, actions: seq<Action>)
    decreases |actions|
  {
    actions == [] || (Polite(b, s, actions[0]) && PoliteRun(b, Do(s, actions[0]), actions[1..]))
  }

  lemma RegistryStaysFair(b: Bundle, s: System, reg: State)
    requires Fair(b, s) && Extends(s.reg.rows, reg.rows) && Linked(b, reg.rows)
    ensures Fair(b, s.(reg := reg))
  {
    hide Extends, Linked, Known, Friendly, AllFriendly;
    var s' := s.(reg := reg);
    forall p: nat ensures PhaseIsFair(b, reg, PhaseOf(s', p)) {
      var phase := PhaseOf(s, p);
      if phase.Replaying? && phase.at < |phase.pending| && phase.pending[phase.at].bundle == b {
        var a := Attempt(s.reg, phase.local, false);
        KnownSurvives(b, a, reg.rows);
        KnownInRows(b, a.(st := a.st.(rows := reg.rows)), Attempt(reg, phase.local, false));
      }
    }
  }

  lemma KnownInRows(b: Bundle, x: Attempt, y: Attempt)
    requires Known(b, x) && x.st.rows == y.st.rows && x.local == y.local
    ensures Known(b, y)
  {
  }

  lemma PhaseStaysFair(b: Bundle, s: System, p: nat, phase: Phase)
    requires Fair(b, s) && PhaseIsFair(b, s.reg, phase)
    ensures Fair(b, To(s, p, phase))
  {
    hide Linked, PhaseIsFair, AllFriendly;
    var s' := To(s, p, phase);
    forall q: nat ensures PhaseIsFair(b, s'.reg, PhaseOf(s', q)) {
      assert PhaseOf(s', q) == if q == p then phase else PhaseOf(s, q);
    }
  }

  lemma FriendlyAppends(b: Bundle, file: seq<Envelope>, e: Envelope)
    requires AllFriendly(b, file) && Friendly(b, e.bundle)
    ensures AllFriendly(b, file + [e])
  {
  }

  lemma FileStaysFair(b: Bundle, s: System, file: seq<Envelope>, enqueued: multiset<Bundle>)
    requires Fair(b, s) && AllFriendly(b, file)
    ensures Fair(b, s.(file := file, enqueued := enqueued))
  {
    hide Linked, PhaseIsFair, AllFriendly;
    var s' := s.(file := file, enqueued := enqueued);
    assert forall p: nat :: PhaseOf(s', p) == PhaseOf(s, p);
  }

  lemma LockStaysFair(b: Bundle, s: System, lock: Option<nat>)
    requires Fair(b, s)
    ensures Fair(b, s.(lock := lock))
  {
    hide Linked, PhaseIsFair, AllFriendly;
    var s' := s.(lock := lock);
    assert forall p: nat :: PhaseOf(s', p) == PhaseOf(s, p);
  }

  lemma NothingKnown(b: Bundle, reg: State)
    ensures Known(b, Attempt(reg, START, false))
  {
  }

  lemma TransactStaysFair(b: Bundle, s: System, p: nat)
    requires Inv(s) && Fair(b, s) && "queue_" <= b.queueId
    ensures Fair(b, DoTransact(s, p))
  {
    hide Valid, Extends, DoStep, StepAt, Linked, Known, StoredUpTo, MissingAreStored, AllFriendly, LeavesKeys;
    var phase := PhaseOf(s, p);
    assert PhaseHolds(s, phase) && PhaseIsFair(b, s.reg, phase);
    if phase.Replaying? && phase.k < Length(s.file[phase.at].bundle) {
      var e := s.file[phase.at];
      var own, before := e.bundle, Attempt(s.reg, phase.local, false);
      var step := StepAt(own, phase.k);
      var a := DoStep(own, step, before);
      FriendlyAt(b, s.file, phase.at);
      StepIsInBundle(own, phase.k);
      StepKeeps(own, step, before);
      if a.failed {
        FailedStepWritesNothing(own, step, before);
      } else if own == b {
        OwnStepKeepsLinked(b, phase.k, before);
        StepKeepsKnown(b, phase.k, before);
      } else {
        ApartLeavesKeys(b, own, step, before);
        LeavingKeysKeepsLinked(b, s.reg.rows, a.st.rows);
      }
      RegistryStaysFair(b, s, a.st);
      var s' := s.(reg := a.st);
      if a.failed {
        FriendlyAppends(b, phase.remaining, Retried(e, FAILED));
        PhaseStaysFair(b, s', p, Flushing(phase.status, phase.pending, phase.at + 1,
            phase.remaining + [Retried(e, FAILED)]));
      } else {
        if own == b {
          KnownInRows(b, a, Attempt(a.st, a.local, false));
        }
        PhaseStaysFair(b, s', p, phase.(k := phase.k + 1, local := a.local));
      }
    }
  }

  lemma FriendlyAt(b: Bundle, file: seq<Envelope>, at: nat)
    requires AllFriendly(b, file) && at < |file|
    ensures Friendly(b, file[at].bundle)
  {
  }

  lemma FinishStaysFair(b: Bundle, s: System, p: nat)
    requires Inv(s) && Fair(b, s)
    ensures Fair(b, Do(s, FinishReplay(p)))
  {
    hide Valid, Extends, Linked, Known, AllFriendly, SetStatus, StoredUpTo, MissingAreStored;
    var phase := PhaseOf(s, p);
    assert PhaseHolds(s, phase) && PhaseIsFair(b, s.reg, phase);
    if phase.Replaying? && phase.k == Length(s.file[phase.at].bundle) {
      var reg := s.reg.(rows := SetStatus(s.reg.rows, phase.local.question, Answered));
      RegistryIsValid(s);
      StatusKeeps(s.reg, phase.local.question, Answered);
      StatusLeavesKeys(b, s.reg.rows, phase.local.question);
      LeavingKeysKeepsLinked(b, s.reg.rows, reg.rows);
      RegistryStaysFair(b, s, reg);
      PhaseStaysFair(b, s.(reg := reg), p, Flushing(phase.status, phase.pending, phase.at + 1, phase.remaining));
    }
  }

  lemma StatusLeavesKeys(b: Bundle, rows: Rows, question: nat)
    ensures LeavesKeys(b, rows, SetStatus(rows, question, Answered))
  {
    FrozenLeavesKeys(b, rows, SetStatus(rows, question, Answered));
  }

  lemma WalkStaysFair(b: Bundle, s: System, p: nat, action: Action)
    requires Fair(b, s)
    requires action in {Append(p), ReadFile(p), SkipOne(p), BeginReplay(p), ReplaceFile(p)}
    ensures Fair(b, Do(s, action))
  {
    hide Linked, Known, AllFriendly, Friendly, MatchesBackend;
    var phase := PhaseOf(s, p);
    assert PhaseIsFair(b, s.reg, phase);
    if action == Append(p) && phase.Enqueuing? {
      FriendlyAppends(b, s.file, phase.e);
      FileStaysFair(b, s, s.file + [phase.e], s.enqueued + multiset{phase.e.bundle});
      PhaseStaysFair(b, s.(file := s.file + [phase.e], enqueued := s.enqueued + multiset{phase.e.bundle}), p, Leaving);
    } else if action == ReadFile(p) && phase.FlushStarts? {
      NothingUnfriendly(b);
      PhaseStaysFair(b, s, p, Flushing(phase.status, s.file, 0, []));
    } else if phase.Flushing? && phase.at < |phase.pending| {
      var e := phase.pending[phase.at];
      if action == SkipOne(p) && !MatchesBackend(e, phase.status) {
        FriendlyAt(b, phase.pending, phase.at);
        FriendlyAppends(b, phase.remaining, e);
        PhaseStaysFair(b, s, p, Flushing(phase.status, phase.pending, phase.at + 1, phase.remaining + [e]));
      } else if action == BeginReplay(p) && MatchesBackend(e, phase.status) {
        NothingKnown(b, s.reg);
        PhaseStaysFair(b, s, p, Replaying(phase.status, phase.pending, phase.at, phase.remaining, 0, START));
      }
    } else if action == ReplaceFile(p) && phase.Flushing? && phase.at == |phase.pending| {
      FileStaysFair(b, s, phase.remaining, s.enqueued);
      PhaseStaysFair(b, s.(file := phase.remaining, enqueued := s.enqueued), p, Leaving);
    }
  }

  lemma NothingUnfriendly(b: Bundle)
    ensures AllFriendly(b, [])
  {
  }

  lemma DoStaysFair(b: Bundle, s: System, action: Action)
    requires Inv(s) && Fair(b, s) && "queue_" <= b.queueId && Polite(b, s, action)
    ensures Fair(b, Do(s, action))
  {
    hide Inv, Fair, PhaseIsFair, RegistryRuns.Apply, SetStatus, DoTransact, MatchesBackend, LeavesKeys, Extends;
    match action
    case CallEnqueue(p, e) =>
      if PhaseOf(s, p).Idle? {
        CallIsFair(b, s.reg, e);
        PhaseStaysFair(b, s, p, WaitsToEnqueue(e));
      }
    case CallFlush(p, status) =>
      if PhaseOf(s, p).Idle? {
        PlainIsFair(b, s.reg, status);
        PhaseStaysFair(b, s, p, WaitsToFlush(status));
      }
    case Acquire(p) =>
      if s.lock == None {
        LockStaysFair(b, s, Some(p));
        PhasesAreFair(b, s, p);
        match PhaseOf(s, p)
        case WaitsToEnqueue(e) => PhaseStaysFair(b, s.(lock := Some(p)), p, Enqueuing(e));
        case WaitsToFlush(status) =>
          PlainIsFair(b, s.reg, status);
          PhaseStaysFair(b, s.(lock := Some(p)), p, FlushStarts(status));
        case _ =>
      }
    case Append(p) => WalkStaysFair(b, s, p, action);
    case ReadFile(p) => WalkStaysFair(b, s, p, action);
    case SkipOne(p) => WalkStaysFair(b, s, p, action);
    case BeginReplay(p) => WalkStaysFair(b, s, p, action);
    case Transact(p) => TransactStaysFair(b, s, p);
    case FinishReplay(p) => FinishStaysFair(b, s, p);
    case ReplaceFile(p) => WalkStaysFair(b, s, p, action);
    case Release(p) =>
      IdleIsFair(b, s.reg);
      LockStaysFair(b, s, None);
      PhaseStaysFair(b, s.(lock := None), p, Idle);
    case Crash(p) =>
      IdleIsFair(b, s.reg);
      LockStaysFair(b, s, None);
      PhaseStaysFair(b, s.(lock := None), p, Idle);
      PhaseStaysFair(b, s, p, Idle);
    case OtherClient(op) =>
      RegistryIsValid(s);
      RegistryRuns.ApplyKeeps(s.reg, op);
      FairIsLinked(b, s);
      LeavingKeysKeepsLinked(b, s.reg.rows, RegistryRuns.Apply(s.reg, op).rows);
      RegistryStaysFair(b, s, RegistryRuns.Apply(s.reg, op));
  }

  lemma CallIsFair(b: Bundle, reg: State, e: Envelope)
    requires Friendly(b, e.bundle)
    ensures PhaseIsFair(b, reg, WaitsToEnqueue(e))
  {
  }

  lemma PlainIsFair(b: Bundle, reg: State, status: BackendStatus)
    ensures PhaseIsFair(b, reg, WaitsToFlush(status)) && PhaseIsFair(b, reg, FlushStarts(status))
  {
  }

  lemma IdleIsFair(b: Bundle, reg: State)
    ensures PhaseIsFair(b, reg, Idle) && PhaseIsFair(b, reg, Leaving)
  {
  }

  lemma PhasesAreFair(b: Bundle, s: System, p: nat)
    requires Fair(b, s)
    ensures PhaseOf(s, p).WaitsToEnqueue? ==> PhaseIsFair(b, s.reg, Enqueuing(PhaseOf(s, p).e))
  {
    assert PhaseIsFair(b, s.reg, PhaseOf(s, p));
  }

  lemma FairIsLinked(b: Bundle, s: System)
    requires Fair(b, s)
    ensures Linked(b, s.reg.rows)
  {
  }

  lemma {:induction false} RunStaysFair(b: Bundle, s: System, actions: seq<Action>)
    requires Inv(s) && Fair(b, s) && "queue_" <= b.queueId && PoliteRun(b, s, actions)
    ensures Fair(b, Run(s, actions))
    decreases |actions|
  {
    hide Inv, Fair, Do, Polite;
    if actions != [] {
      DoKeeps(s, actions[0]);
      DoStaysFair(b, s, actions[0]);
      RunStaysFair(b, Do(s, actions[0]), actions[1..]);
    }
  }

  lemma InitiallyFair(b: Bundle)
    ensures Fair(b, INITIAL)
  {
  }

  /** A fully stored bundle whose keyed rows are linked has its report and its claims, linked as it lists them. */
  lemma FullyLinked(b: Bundle, rows: Rows)
    requires FullyStored(b, rows) && Linked(b, rows)
    ensures exists report :: Keyed(b, rows, Reports, ReportKey(b), report) && ReportLinks(b, rows, report)
    ensures forall j: nat :: IsFirst(b, j) ==> ClaimStored(b, rows, j)
  {
    hide Keyed, ClaimLinks, ReportLinks, ReportKey, ClaimKey, KeyOf;
    var n := Length(b);
    LastStepReports(b, START);
    assert StepStored(b, n - 1, rows);
    var report :| Keyed(b, rows, Reports, ReportKey(b), report);
    assert ReportLinks(b, rows, report);
    forall j: nat | IsFirst(b, j) ensures ClaimStored(b, rows, j) {
      var i := 3 + 2 * |b.annotations| + j;
      assert StepAt(b, i) == ClaimStep(j);
      ClaimStepKey(b, j);
      assert StepStored(b, i, rows);
      var id :| Keyed(b, rows, Claims, ClaimKey(b, b.findings[j].tempId), id);
      assert ClaimLinks(b, rows, b.findings[j], id);
    }
  }

  /**
   * In every run in which nobody else uses the bundle's keys, whatever interleaves and crashes: once an envelope of the
   * bundle has left the queue file, its report and claims are in the registry, linked as the bundle lists them.
   */
  lemma DroppedBundlesAreLinked(actions: seq<Action>, b: Bundle)
    requires "queue_" <= b.queueId && PoliteRun(b, INITIAL, actions)
    ensures var s := Run(INITIAL, actions);
            Bundles(s.file)[b] < s.enqueued[b] ==>
              && (exists report :: Keyed(b, s.reg.rows, Reports, ReportKey(b), report)
                   && ReportLinks(b, s.reg.rows, report))
              && (forall j: nat :: IsFirst(b, j) ==> ClaimStored(b, s.reg.rows, j))
  {
    hide Fair, Inv, Run, Bundles, FullyStored, Linked, Keyed, ReportLinks, ClaimStored;
    InitialInv();
    InitiallyFair(b);
    RunStaysFair(b, INITIAL, actions);
    NoEnvelopeIsLost(actions, b);
    var s := Run(INITIAL, actions);
    FairIsLinked(b, s);
    if Bundles(s.file)[b] < s.enqueued[b] {
      FullyLinked(b, s.reg.rows);
    }
  }
}
