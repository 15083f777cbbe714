/** What a completed replay leaves in the registry: one row per key of the bundle, linked as the bundle says. */
module ReplayLinks {
  import opened PyText
  import opened ScopedKeys
  import opened RegistryStore
  import opened RegistryLaws
  import opened Replay
  import opened ReplayLaws

  /** The row of the bundle's namespace that carries a key of the bundle. */
  ghost predicate Keyed(b: Bundle, rows: Rows, table: Table, raw: string, id: nat) {
    Scoped(Some(raw), b.ns).Some? && HasKey(rows, table, b.ns, Scoped(Some(raw), b.ns).value, id)
  }

  function ExcerptKey(b: Bundle, temp: string): string { b.queueId + ":excerpt:" + temp }

  function ClaimKey(b: Bundle, temp: string): string { b.queueId + ":claim:" + temp }

  function ReportKey(b: Bundle): string { b.queueId + ":report" }

  /** The finding that decides for its temporary id: later ones with the same id find its claim. */
  predicate IsFirst(b: Bundle, j: nat) {
    j < |b.findings| && forall i :: 0 <= i < j ==> b.findings[i].tempId != b.findings[j].tempId
  }

  /** The excerpts of a claim are, one by one, the rows that carry the keys of its finding's annotations. */
  ghost predicate ClaimLinks(b: Bundle, rows: Rows, f: Finding, id: nat) {
    && Ref(Claims, id) in rows && rows[Ref(Claims, id)].body.Claim?
    && var links := rows[Ref(Claims, id)].body.excerpts;
       |links| == |f.annotations|
       && forall p :: 0 <= p < |links| ==> Keyed(b, rows, Excerpts, ExcerptKey(b, f.annotations[p]), links[p])
  }

  ghost predicate ReportLinks(b: Bundle, rows: Rows, id: nat) {
    && Ref(Reports, id) in rows && rows[Ref(Reports, id)].body.Report?
    && var links := rows[Ref(Reports, id)].body.claims;
       |links| == |b.report.findings|
       && forall p :: 0 <= p < |links| ==> Keyed(b, rows, Claims, ClaimKey(b, b.report.findings[p]), links[p])
  }

  /** Queue ids are made by the queue, and nothing in the store carries the bundle's claim or report keys yet. */
  ghost predicate Unplayed(b: Bundle, rows: Rows) {
    && "queue_" <= b.queueId
    && (forall j, id :: 0 <= j < |b.findings| ==> !Keyed(b, rows, Claims, ClaimKey(b, b.findings[j].tempId), id))
    && (forall id :: !Keyed(b, rows, Reports, ReportKey(b), id))
  }

  lemma BundleKeysAreApart(b: Bundle, x: string, y: string)
    requires "queue_" <= b.queueId && b.queueId <= x && b.queueId <= y && x != y
    ensures Scoped(Some(x), b.ns).Some? && Scoped(Some(y), b.ns).Some? && Scoped(Some(x), b.ns) != Scoped(Some(y), b.ns)
  {
    assert x[0] == 'q' && y[0] == 'q' && Prefix(b.ns)[0] == 'n';
    assert x == (Prefix(b.ns) + x)[|Prefix(b.ns)|..] && y == (Prefix(b.ns) + y)[|Prefix(b.ns)|..];
  }

  lemma ClaimKeysAreApart(b: Bundle, s: string, t: string)
    requires "queue_" <= b.queueId && s != t
    ensures Scoped(Some(ClaimKey(b, s)), b.ns) != Scoped(Some(ClaimKey(b, t)), b.ns)
  {
    var head := b.queueId + ":claim:";
    assert s == ClaimKey(b, s)[|head|..] && t == ClaimKey(b, t)[|head|..];
    assert b.queueId <= ClaimKey(b, s) && b.queueId <= ClaimKey(b, t);
    BundleKeysAreApart(b, ClaimKey(b, s), ClaimKey(b, t));
  }

  lemma KeyedSurvives(b: Bundle, old_: Rows, new_: Rows, table: Table, raw: string, id: nat)
    requires Extends(old_, new_) && Keyed(b, old_, table, raw, id)
    ensures Keyed(b, new_, table, raw, id) && Fixed(new_[Ref(table, id)]) == Fixed(old_[Ref(table, id)])
  {
  }

  lemma KeyedIsUnique(b: Bundle, st: State, table: Table, raw: string, x: nat, y: nat)
    requires Valid(st) && Keyed(b, st.rows, table, raw, x) && Keyed(b, st.rows, table, raw, y)
    ensures x == y
  {
  }

  /** A step of a table without natural keys leaves the row with its key; if there was none, the row it wanted. */
  lemma StepLeavesKey(b: Bundle, step: Step, a: Attempt)
    requires InBundle(b, step) && Valid(a.st) && !DoStep(b, step, a).failed
    requires step.SessionStep? || step.ExcerptStep? || step.ClaimStep? || step.ReportStep?
    ensures BodyOf(b, step, a.st.rows, a.local).Ok?
    ensures var next := DoStep(b, step, a);
            exists id :: && Keyed(b, next.st.rows, StepTable(step), KeyOf(b, step), id)
                         && next.local == Record(b, step, a.local, id)
                         && ((Keyed(b, a.st.rows, StepTable(step), KeyOf(b, step), id) && next.st == a.st)
                             || next.st.rows == a.st.rows[Ref(StepTable(step), id)
                                                          := RowOf(b, step, BodyOf(b, step, a.st.rows, a.local).value)])
  {
    hide Valid, KeyOf, RowOf, BodyOf, DoStep, Record, RelationshipsHold, HasKey;
    var body := BodyOf(b, step, a.st.rows, a.local);
    if body.Err? {
      NoBodyNoStep(b, step, a);
    }
    var row, raw := RowOf(b, step, body.value), Some(KeyOf(b, step));
    BodyTable(b, step, a.st.rows, a.local);
    StepIsAdmit(b, step, a, body.value);
    NaturalByTable(body.value);
    var id := Admit(a.st, row, raw).result.value;
    AdmitLeaves(a.st, row, raw, id);
    NoNaturalHolder(Admit(a.st, row, raw).st.rows, StepTable(step), b.ns, id);
    assert Keyed(b, DoStep(b, step, a).st.rows, StepTable(step), KeyOf(b, step), id);
    if FindExisting(a.st.rows, row, raw).Some? {
      FindByKeyFindsTheHolder(a.st, StepTable(step), raw, b.ns, id);
      FindByNaturalFindsTheHolder(a.st, StepTable(step), b.ns, NoNaturalKey, id);
      NoNaturalHolder(a.st.rows, StepTable(step), b.ns, id);
    }
  }

  lemma NoNaturalHolder(rows: Rows, table: Table, ns: Namespace, id: nat)
    ensures !HasNatural(rows, table, ns, NoNaturalKey, id)
  {
  }

  // ---------------------------------------------------------------- what holds after k transactions

  ghost predicate Known(b: Bundle, a: Attempt) {
    && (forall t <- a.local.excerpts :: Keyed(b, a.st.rows, Excerpts, ExcerptKey(b, t), a.local.excerpts[t]))
    && (forall t <- a.local.claims :: Keyed(b, a.st.rows, Claims, ClaimKey(b, t), a.local.claims[t]))
  }

  ghost predicate Absent(b: Bundle, rows: Rows, table: Table, raw: string) {
    forall id :: !Keyed(b, rows, table, raw, id)
  }

  ghost predicate ClaimStored(b: Bundle, rows: Rows, j: nat)
    requires j < |b.findings|
  {
    exists id :: Keyed(b, rows, Claims, ClaimKey(b, b.findings[j].tempId), id) && ClaimLinks(b, rows, b.findings[j], id)
  }

  /** Claims whose step is done are stored and linked, claims whose step is to come are not there yet. */
  ghost predicate ClaimsSoFar(b: Bundle, k: nat, rows: Rows) {
    forall j: nat :: IsFirst(b, j) ==>
      if 3 + 2 * |b.annotations| + j < k then ClaimStored(b, rows, j)
      else Absent(b, rows, Claims, ClaimKey(b, b.findings[j].tempId))
  }

  lemma KnownSurvives(b: Bundle, a: Attempt, rows: Rows)
    requires Known(b, a) && Extends(a.st.rows, rows)
    ensures Known(b, a.(st := a.st.(rows := rows)))
  {
  }

  lemma AbsentSurvives(b: Bundle, old_: Rows, new_: Rows, table: Table, raw: string)
    requires Extends(old_, new_) && Frozen(table, old_, new_) && Absent(b, old_, table, raw)
    ensures Absent(b, new_, table, raw)
  {
    forall id | Keyed(b, new_, table, raw, id) ensures Keyed(b, old_, table, raw, id) {
      HolderWasThere(old_, new_, table, b.ns, Scoped(Some(raw), b.ns).value, id);
    }
  }

  lemma ClaimSurvives(b: Bundle, old_: Rows, new_: Rows, j: nat)
    requires j < |b.findings| && Extends(old_, new_) && ClaimStored(b, old_, j)
    ensures ClaimStored(b, new_, j)
  {
    hide Keyed, Extends, ClaimKey, ExcerptKey;
    var f := b.findings[j];
    var id :| Keyed(b, old_, Claims, ClaimKey(b, f.tempId), id) && ClaimLinks(b, old_, f, id);
    KeyedSurvives(b, old_, new_, Claims, ClaimKey(b, f.tempId), id);
    ExtendsKeepsRow(old_, new_, Ref(Claims, id));
    var links := old_[Ref(Claims, id)].body.excerpts;
    forall p | 0 <= p < |links| { KeyedSurvives(b, old_, new_, Excerpts, ExcerptKey(b, f.annotations[p]), links[p]); }
  }

  lemma ExtendsKeepsRow(old_: Rows, new_: Rows, r: Ref)
    requires Extends(old_, new_) && r in old_ && !old_[r].body.Question?
    ensures r in new_ && new_[r].body == old_[r].body
  {
  }

  /** A step that adds no claim leaves the claims as they are. */
  lemma {:induction false} OtherStepsKeepClaims(b: Bundle, k: nat, a: Attempt)
    requires k < Length(b) && Valid(a.st) && ClaimsSoFar(b, k, a.st.rows) && !StepAt(b, k).ClaimStep?
    ensures ClaimsSoFar(b, k + 1, DoStep(b, StepAt(b, k), a).st.rows)
  {
    hide Valid, Extends, Frozen, DoStep, Absent, ClaimStored;
    var rows, next := a.st.rows, DoStep(b, StepAt(b, k), a).st.rows;
    StepIsInBundle(b, k);
    StepKeeps(b, StepAt(b, k), a);
    assert Frozen(Claims, rows, next);
    forall j: nat | IsFirst(b, j)
      ensures if 3 + 2 * |b.annotations| + j < k + 1 then ClaimStored(b, next, j)
              else Absent(b, next, Claims, ClaimKey(b, b.findings[j].tempId))
    {
      if 3 + 2 * |b.annotations| + j < k {
        ClaimSurvives(b, rows, next, j);
      } else {
        AbsentSurvives(b, rows, next, Claims, ClaimKey(b, b.findings[j].tempId));
      }
    }
  }

  /** The claim step stores the claim its finding describes, and no other claim appears. */
  lemma {:induction false} ClaimStepStores(b: Bundle, k: nat, a: Attempt)
    requires k < Length(b) && Valid(a.st) && Known(b, a) && ClaimsSoFar(b, k, a.st.rows) && StepAt(b, k).ClaimStep?
    requires "queue_" <= b.queueId && !DoStep(b, StepAt(b, k), a).failed
    ensures ClaimsSoFar(b, k + 1, DoStep(b, StepAt(b, k), a).st.rows)
  {
    hide Valid, Extends, Frozen, DoStep, Absent, ClaimStored, Keyed, ClaimKey, RowOf;
    var step := StepAt(b, k);
    var f := step.f;
    var rows, next := a.st.rows, DoStep(b, step, a).st.rows;
    StepIsInBundle(b, k);
    StepKeeps(b, step, a);
    StepLeavesKey(b, step, a);
    ClaimStepKey(b, f);
    var id :| Keyed(b, next, Claims, ClaimKey(b, b.findings[f].tempId), id)
              && ((Keyed(b, rows, Claims, ClaimKey(b, b.findings[f].tempId), id) && next == rows)
                  || next == rows[Ref(Claims, id) := RowOf(b, step, BodyOf(b, step, rows, a.local).value)]);
    forall j: nat | IsFirst(b, j)
      ensures if 3 + 2 * |b.annotations| + j < k + 1 then ClaimStored(b, next, j)
              else Absent(b, next, Claims, ClaimKey(b, b.findings[j].tempId))
    {
      if j < f {
        ClaimSurvives(b, rows, next, j);
      } else if j == f {
        NotThereBefore(b, rows, f, id);
        NewClaimIsLinked(b, a, f, next, id);
      } else {
        OtherClaimsStayAbsent(b, rows, next, f, j, id);
      }
    }
  }

  lemma ClaimStepKey(b: Bundle, f: nat)
    requires f < |b.findings|
    ensures KeyOf(b, ClaimStep(f)) == ClaimKey(b, b.findings[f].tempId)
  {
  }

  lemma NotThereBefore(b: Bundle, rows: Rows, f: nat, id: nat)
    requires f < |b.findings| && Absent(b, rows, Claims, ClaimKey(b, b.findings[f].tempId))
    ensures !Keyed(b, rows, Claims, ClaimKey(b, b.findings[f].tempId), id)
  {
  }

  lemma NewClaimIsLinked(b: Bundle, a: Attempt, f: nat, next: Rows, id: nat)
    requires f < |b.findings| && Known(b, a) && Extends(a.st.rows, next)
    requires BodyOf(b, ClaimStep(f), a.st.rows, a.local).Ok?
    requires next == a.st.rows[Ref(Claims, id) := RowOf(
        b, ClaimStep(f), BodyOf(b, ClaimStep(f), a.st.rows, a.local).value)]
    requires Keyed(b, next, Claims, ClaimKey(b, b.findings[f].tempId), id)
    ensures ClaimStored(b, next, f)
  {
  }

  lemma OtherClaimsStayAbsent(b: Bundle, old_: Rows, new_: Rows, f: nat, j: nat, id: nat)
    requires f < |b.findings| && f < j && IsFirst(b, j) && "queue_" <= b.queueId
    requires Keyed(b, new_, Claims, ClaimKey(b, b.findings[f].tempId), id)
    requires Extends(old_, new_) && forall r :: r in new_ && r.table == Claims && r != Ref(Claims, id) ==> r in old_
    requires Absent(b, old_, Claims, ClaimKey(b, b.findings[j].tempId))
    ensures Absent(b, new_, Claims, ClaimKey(b, b.findings[j].tempId))
  {
    hide ClaimKey;
    ClaimKeysAreApart(b, b.findings[f].tempId, b.findings[j].tempId);
    var raw := ClaimKey(b, b.findings[j].tempId);
    forall x ensures !Keyed(b, new_, Claims, raw, x) {
      if x != id && Ref(Claims, x) in old_ {
        FixedDecides(old_[Ref(Claims, x)], new_[Ref(Claims, x)]);
        assert !Keyed(b, old_, Claims, raw, x);
      }
    }
  }

  lemma {:induction false} StepKeepsKnown(b: Bundle, k: nat, a: Attempt)
    requires k < Length(b) && Valid(a.st) && Known(b, a) && !DoStep(b, StepAt(b, k), a).failed
    ensures Known(b, DoStep(b, StepAt(b, k), a))
  {
    hide Valid, Extends, Frozen, DoStep, Keyed, RowOf, BodyOf;
    var step := StepAt(b, k);
    var next := DoStep(b, step, a);
    StepIsInBundle(b, k);
    StepKeeps(b, step, a);
    KnownSurvives(b, a, next.st.rows);
    if step.ExcerptStep? || step.ClaimStep? {
      StepLeavesKey(b, step, a);
    } else {
      OtherStepsLearnNoLinks(b, step, a);
    }
  }

  lemma OtherStepsLearnNoLinks(b: Bundle, step: Step, a: Attempt)
    requires InBundle(b, step) && !step.ExcerptStep? && !step.ClaimStep?
    ensures DoStep(b, step, a).local.excerpts == a.local.excerpts && DoStep(b, step, a).local.claims == a.local.claims
  {
  }

  lemma {:induction false} ReplaySoFar(b: Bundle, k: nat, st: State)
    requires k <= Length(b) && Valid(st) && Unplayed(b, st.rows) && !Exec(b, k, st).failed
    ensures Known(b, Exec(b, k, st)) && ClaimsSoFar(b, k, Exec(b, k, st).st.rows)
    ensures k < Length(b) ==> Absent(b, Exec(b, k, st).st.rows, Reports, ReportKey(b))
  {
    hide Valid, Extends, Frozen, DoStep, Keyed, Absent, ClaimStored, ClaimsSoFar, Known, Unplayed, StepAt;
    if k == 0 {
      NothingYet(b, st);
    } else {
      var step, a := StepAt(b, k - 1), Exec(b, k - 1, st);
      ReplaySoFar(b, k - 1, st);
      ExecKeeps(b, k - 1, st);
      StepKeepsKnown(b, k - 1, a);
      if step.ClaimStep? {
        Queued(b, st.rows);
        ClaimStepStores(b, k - 1, a);
      } else {
        OtherStepsKeepClaims(b, k - 1, a);
      }
      if k < Length(b) {
        StepIsInBundle(b, k - 1);
        StepKeeps(b, step, a);
        OnlyTheLastReports(b, k - 1);
        assert Frozen(Reports, a.st.rows, Exec(b, k, st).st.rows);
        AbsentSurvives(b, a.st.rows, Exec(b, k, st).st.rows, Reports, ReportKey(b));
      }
    }
  }

  lemma NothingYet(b: Bundle, st: State)
    requires Unplayed(b, st.rows)
    ensures Known(b, Exec(b, 0, st)) && ClaimsSoFar(b, 0, Exec(b, 0, st).st.rows)
    ensures Absent(b, Exec(b, 0, st).st.rows, Reports, ReportKey(b))
  {
  }

  lemma OnlyTheLastReports(b: Bundle, i: nat)
    requires i < Length(b) - 1
    ensures StepTable(StepAt(b, i)) != Reports
  {
  }

  lemma Queued(b: Bundle, rows: Rows)
    requires Unplayed(b, rows)
    ensures "queue_" <= b.queueId
  {
  }

  /** The report is stored under its key, linked to the claims, and about the question the replay answers. */
  lemma ReportIsStored(b: Bundle, st: State)
    requires Valid(st) && Unplayed(b, st.rows) && !Exec(b, Length(b), st).failed
    ensures var a := Exec(b, Length(b), st);
            && Keyed(b, a.st.rows, Reports, ReportKey(b), a.local.report)
            && ReportLinks(b, a.st.rows, a.local.report)
            && a.st.rows[Ref(Reports, a.local.report)].body.question == a.local.question
            && Ref(Questions, a.local.question) in a.st.rows
  {
    hide Valid, Extends, Frozen, DoStep, Keyed, Unplayed, ClaimKey;
    var n := Length(b);
    var step, before := StepAt(b, n - 1), Exec(b, n - 1, st);
    var a := Exec(b, n, st);
    ReplaySoFar(b, n - 1, st);
    ExecKeeps(b, n - 1, st);
    ExecKeeps(b, n, st);
    StepIsInBundle(b, n - 1);
    StepKeeps(b, step, before);
    StepLeavesKey(b, step, before);
    KnownSurvives(b, before, a.st.rows);
    assert step == ReportStep && KeyOf(b, step) == ReportKey(b);
    assert !Keyed(b, before.st.rows, Reports, ReportKey(b), a.local.report);
    var body := BodyOf(b, step, before.st.rows, before.local).value;
    assert a.st.rows[Ref(Reports, a.local.report)] == RowOf(b, step, body);
    var links := a.st.rows[Ref(Reports, a.local.report)].body.claims;
    var temps := b.report.findings;
    assert Ids(before.local.claims, temps) == Ok(links);
    assert forall p :: 0 <= p < |temps| ==>
      temps[p] in before.local.claims && links[p] == before.local.claims[temps[p]];
    QuestionIsStored(a.st, Ref(Reports, a.local.report));
  }

  lemma QuestionIsStored(st: State, r: Ref)
    requires Valid(st) && r in st.rows && st.rows[r].body.Report?
    ensures Ref(Questions, st.rows[r].body.question) in st.rows
  {
    assert RelationshipsHold(st.rows, References(st.rows[r].body), st.rows[r].ns);
    assert Present(st.rows, References(st.rows[r].body)[0], st.rows[r].ns);
  }

  // ---------------------------------------------------------------- one row per key of the bundle

  /** The records among the first `k` transactions that have a key of the bundle alone are in the registry. */
  ghost predicate StoredUpTo(b: Bundle, k: nat, rows: Rows)
    requires k <= Length(b)
  {
    forall i :: 0 <= i < k && StepTable(StepAt(b, i)) in {Sessions, Excerpts, Claims, Reports}
        ==> StepStored(b, i, rows)
  }

  ghost predicate StepStored(b: Bundle, i: nat, rows: Rows)
    requires i < Length(b)
  {
    exists id :: Keyed(b, rows, StepTable(StepAt(b, i)), KeyOf(b, StepAt(b, i)), id)
  }

  /** Fully replayed: the session, every excerpt, every claim and the report are there under the bundle's keys. */
  ghost predicate FullyStored(b: Bundle, rows: Rows) {
    StoredUpTo(b, Length(b), rows)
  }

  lemma StoredSurvives(b: Bundle, k: nat, old_: Rows, new_: Rows)
    requires k <= Length(b) && Extends(old_, new_) && StoredUpTo(b, k, old_)
    ensures StoredUpTo(b, k, new_)
  {
    hide Keyed, Extends, KeyOf;
    forall i | 0 <= i < k && StepTable(StepAt(b, i)) in {Sessions, Excerpts, Claims, Reports}
      ensures StepStored(b, i, new_)
    {
      assert StepStored(b, i, old_);
      var id :| Keyed(b, old_, StepTable(StepAt(b, i)), KeyOf(b, StepAt(b, i)), id);
      KeyedSurvives(b, old_, new_, StepTable(StepAt(b, i)), KeyOf(b, StepAt(b, i)), id);
    }
  }

  lemma TransactionStores(b: Bundle, k: nat, a: Attempt)
    requires k < Length(b) && Valid(a.st) && StoredUpTo(b, k, a.st.rows) && !DoStep(b, StepAt(b, k), a).failed
    ensures StoredUpTo(b, k + 1, DoStep(b, StepAt(b, k), a).st.rows)
  {
    hide Valid, Extends, DoStep, Keyed, KeyOf, StepAt, Record, RowOf, BodyOf;
    StepIsInBundle(b, k);
    StepKeeps(b, StepAt(b, k), a);
    StoredSurvives(b, k, a.st.rows, DoStep(b, StepAt(b, k), a).st.rows);
    if StepTable(StepAt(b, k)) in {Sessions, Excerpts, Claims, Reports} {
      StepLeavesKey(b, StepAt(b, k), a);
      assert StepStored(b, k, DoStep(b, StepAt(b, k), a).st.rows);
    }
  }

  lemma {:induction false} ExecStores(b: Bundle, k: nat, st: State)
    requires k <= Length(b) && Valid(st) && !Exec(b, k, st).failed
    ensures StoredUpTo(b, k, Exec(b, k, st).st.rows)
  {
    hide Valid, Extends, DoStep, StoredUpTo, StepAt;
    if k == 0 {
      NothingStoredYet(b, Exec(b, 0, st).st.rows);
    } else {
      ExecStores(b, k - 1, st);
      ExecKeeps(b, k - 1, st);
      TransactionStores(b, k - 1, Exec(b, k - 1, st));
    }
  }

  lemma NothingStoredYet(b: Bundle, rows: Rows)
    ensures StoredUpTo(b, 0, rows)
  {
  }

  /**
   * Whatever crashed attempts came before, a complete replay leaves exactly one row per key of the bundle: for the
   * session, every annotation's excerpt, listed by a finding or not, every finding's claim, and the report.
   */
  lemma {:induction false} CompletedReplayIsStored(b: Bundle, cuts: seq<nat>, st: State)
    requires Valid(st) && Complete(b, st).result.Ok?
    ensures var rows := Complete(b, Attempts(b, cuts, st)).st.rows;
            && FullyStored(b, rows)
            && (forall table, raw, x, y :: Keyed(b, rows, table, raw, x) && Keyed(b, rows, table, raw, y) ==> x == y)
  {
    CrashesLeaveNoTrace(b, cuts, st);
    var a := Exec(b, Length(b), st);
    var o := Complete(b, st);
    ExecKeeps(b, Length(b), st);
    ExecStores(b, Length(b), st);
    StatusKeeps(a.st, a.local.question, Answered);
    hide Valid, Extends, Keyed, StoredUpTo, Exec, SetStatus;
    StoredSurvives(b, Length(b), a.st.rows, o.st.rows);
    forall table, raw, x: nat, y: nat | Keyed(b, o.st.rows, table, raw, x) && Keyed(b, o.st.rows, table, raw, y)
      ensures x == y
    {
      KeyedIsUnique(b, o.st, table, raw, x, y);
    }
  }

  /**
   * Whatever crashed attempts came before, after one complete replay of a bundle new to the store: the row with the
   * report's key is the one returned, and no other row carries it; its claims carry the findings' keys and theirs the
   * annotations' keys, as the bundle lists them; and the report's question is answered.
   */
  lemma {:induction false} CompletedReplayIsLinked(b: Bundle, cuts: seq<nat>, st: State)
    requires Valid(st) && Unplayed(b, st.rows) && Complete(b, st).result.Ok?
    ensures var o := Complete(b, Attempts(b, cuts, st));
            && o.result.Ok?
            && var report := o.result.value;
            && (forall id :: Keyed(b, o.st.rows, Reports, ReportKey(b), id) <==> id == report)
            && ReportLinks(b, o.st.rows, report)
            && (forall j: nat :: IsFirst(b, j) ==> ClaimStored(b, o.st.rows, j))
            && var q := Ref(Questions, o.st.rows[Ref(Reports, report)].body.question);
               q in o.st.rows && o.st.rows[q].body.Question? && o.st.rows[q].body.status == Answered
  {
    CrashesLeaveNoTrace(b, cuts, st);
    var a := Exec(b, Length(b), st);
    var o := Complete(b, st);
    ReplaySoFar(b, Length(b), st);
    ReportIsStored(b, st);
    ExecKeeps(b, Length(b), st);
    StatusKeeps(a.st, a.local.question, Answered);
    AnswersQuestion(a);
    hide Valid, Extends, Keyed, ClaimStored, Exec, SetStatus;
    KeyedSurvives(b, a.st.rows, o.st.rows, Reports, ReportKey(b), a.local.report);
    forall id | Keyed(b, o.st.rows, Reports, ReportKey(b), id) ensures id == a.local.report {
      KeyedIsUnique(b, o.st, Reports, ReportKey(b), id, a.local.report);
    }
    ReportSurvives(b, a.st.rows, o.st.rows, a.local.report);
    forall j: nat | IsFirst(b, j) ensures ClaimStored(b, o.st.rows, j) {
      ClaimSurvives(b, a.st.rows, o.st.rows, j);
    }
  }

  lemma AnswersQuestion(a: Attempt)
    requires Valid(a.st) && Ref(Questions, a.local.question) in a.st.rows
    ensures var q := Ref(Questions, a.local.question);
            q in Answer(a).rows && Answer(a).rows[q].body.Question? && Answer(a).rows[q].body.status == Answered
  {
  }

  lemma ReportSurvives(b: Bundle, old_: Rows, new_: Rows, id: nat)
    requires Extends(old_, new_) && ReportLinks(b, old_, id)
    ensures ReportLinks(b, new_, id) && new_[Ref(Reports, id)].body == old_[Ref(Reports, id)].body
  {
  }
}
