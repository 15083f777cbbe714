/**
 * Replay is at-least-once, its effect is exactly-once: crashes at any points leave no trace once a replay completes.
 */
module ReplayLaws {
  import opened PyText
  import opened ScopedKeys
  import opened RegistryStore
  import opened RegistryLaws
  import opened Replay

  // ---------------------------------------------------------------- one transaction, done again later

  /** No row of the table was added. */
  ghost predicate Frozen(table: Table, old_: Rows, new_: Rows) {
    forall r :: r in new_ && r.table == table ==> r in old_
  }

  lemma HolderSurvives(old_: Rows, new_: Rows, table: Table, ns: Namespace, key: string, id: nat)
    requires Extends(old_, new_) && HasKey(old_, table, ns, key, id)
    ensures HasKey(new_, table, ns, key, id)
  {
  }

  lemma HolderWasThere(old_: Rows, new_: Rows, table: Table, ns: Namespace, key: string, id: nat)
    requires Extends(old_, new_) && Frozen(table, old_, new_) && HasKey(new_, table, ns, key, id)
    ensures HasKey(old_, table, ns, key, id)
  {
  }

  lemma NaturalSurvives(old_: Rows, new_: Rows, table: Table, ns: Namespace, natural: NaturalKey, id: nat)
    requires Extends(old_, new_) && HasNatural(old_, table, ns, natural, id)
    ensures HasNatural(new_, table, ns, natural, id)
  {
  }

  /** What a create that succeeded leaves behind: a row with the key, or else one with the natural key. */
  lemma AdmitLeaves(st: State, row: Row, raw: Option<string>, id: nat)
    requires Valid(st) && row.key == Scoped(raw, row.ns) && row.key.Some? && Admit(st, row, raw).result == Ok(id)
    ensures var rows := Admit(st, row, raw).st.rows;
            || HasKey(rows, TableOf(row.body), row.ns, row.key.value, id)
            || (HasNatural(rows, TableOf(row.body), row.ns, Natural(row.body), id)
                && FindByKey(rows, TableOf(row.body), raw, row.ns) == None)
  {
  }

  /**
   * The same key and natural key, admitted again after any later changes: nothing is written. It is the same row
   * exactly if no other row has come to carry the key, which the key lookup would find first.
   */
  lemma AdmitRefinds(st: State, row: Row, raw: Option<string>, id: nat, s: State, row': Row)
    requires Valid(st) && Valid(s)
    requires row.key == Scoped(raw, row.ns) && row.key.Some? && Admit(st, row, raw).result == Ok(id)
    requires Extends(Admit(st, row, raw).st.rows, s.rows)
    requires row'.ns == row.ns && row'.key == row.key && Natural(row'.body) == Natural(row.body)
    requires TableOf(row'.body) == TableOf(row.body) && RelationshipsHold(s.rows, References(row'.body), row.ns)
    ensures Admit(s, row', raw).st == s && Admit(s, row', raw).result.Ok?
    ensures Admit(s, row', raw).result == Ok(id)
       <==> forall other :: HasKey(s.rows, TableOf(row.body), row.ns, row.key.value, other) ==> other == id
  {
    var table, ns := TableOf(row.body), row.ns;
    var left := Admit(st, row, raw).st;
    AdmitLeaves(st, row, raw, id);
    AdmitKeeps(st, row, raw);
    hide Admit, Valid, Extends;
    if HasKey(left.rows, table, ns, row.key.value, id) {
      HolderSurvives(left.rows, s.rows, table, ns, row.key.value, id);
    } else {
      NaturalSurvives(left.rows, s.rows, table, ns, Natural(row.body), id);
      FindByNaturalFindsTheHolder(s, table, ns, Natural(row.body), id);
    }
    forall other: nat
      ensures FindByKey(s.rows, table, raw, ns) == Some(other) <==> HasKey(s.rows, table, ns, row.key.value, other)
    {
      FindByKeyFindsTheHolder(s, table, raw, ns, other);
    }
    AdmitFinds(s, row', raw);
  }

  /** So it is where no row was added to the table, and always where the key alone tells rows apart. */
  lemma SameRowRefound(st: State, row: Row, raw: Option<string>, id: nat, s: State)
    requires Valid(st) && Valid(s)
    requires row.key == Scoped(raw, row.ns) && row.key.Some? && Admit(st, row, raw).result == Ok(id)
    requires Extends(Admit(st, row, raw).st.rows, s.rows)
    requires Natural(row.body) == NoNaturalKey || Frozen(TableOf(row.body), Admit(st, row, raw).st.rows, s.rows)
    ensures forall other :: HasKey(s.rows, TableOf(row.body), row.ns, row.key.value, other) ==> other == id
  {
    var table, ns, key := TableOf(row.body), row.ns, row.key.value;
    var left := Admit(st, row, raw).st;
    AdmitLeaves(st, row, raw, id);
    AdmitKeeps(st, row, raw);
    hide Admit, Valid, Extends, Frozen;
    forall other: nat | HasKey(s.rows, table, ns, key, other) ensures other == id {
      if HasKey(left.rows, table, ns, key, id) {
        HolderSurvives(left.rows, s.rows, table, ns, key, id);
        KeyHolderIsUnique(s, table, ns, key, other, id);
      } else {
        HolderWasThere(left.rows, s.rows, table, ns, key, other);
        FindByKeyFindsTheHolder(left, table, raw, ns, other);
      }
    }
  }

  lemma AdmitFinds(s: State, row: Row, raw: Option<string>)
    requires RelationshipsHold(s.rows, References(row.body), row.ns) && FindExisting(s.rows, row, raw).Some?
    ensures Admit(s, row, raw) == Outcome(s, Ok(FindExisting(s.rows, row, raw).value))
  {
  }

  // ---------------------------------------------------------------- one step of a replay, done again later

  function StepTable(step: Step): Table {
    match step
    case TopicStep => Topics
    case QuestionStep => Questions
    case SessionStep => Sessions
    case SourceStep(_) => Sources
    case ExcerptStep(_) => Excerpts
    case ClaimStep(_) => Claims
    case ReportStep => Reports
  }

  ghost predicate InBundle(b: Bundle, step: Step) {
    && ((step.SourceStep? || step.ExcerptStep?) ==> step.a < |b.annotations|)
    && (step.ClaimStep? ==> step.f < |b.findings|)
  }

  ghost function RowOf(b: Bundle, step: Step, body: Body): Row
    requires InBundle(b, step)
  {
    RowFrom(b.ns, Some(KeyOf(b, step)), TextOf(b, step), VisOf(b, step), None, body)
  }

  predicate SourceIsHome(b: Bundle, rows: Rows, local: Local) {
    Ref(Sources, local.source) in rows && rows[Ref(Sources, local.source)].ns == b.ns
  }

  /** Two attempts know the same, but for the source looked up last. */
  predicate Similar(l: Local, m: Local) {
    l.(source := 0) == m.(source := 0)
  }

  lemma AdmitAdds(st: State, row: Row, raw: Option<string>)
    ensures forall table :: table != TableOf(row.body) ==> Frozen(table, st.rows, Admit(st, row, raw).st.rows)
  {
  }

  lemma StepIsAdmit(b: Bundle, step: Step, a: Attempt, body: Body)
    requires InBundle(b, step) && BodyOf(b, step, a.st.rows, a.local) == Ok(body)
    ensures var row, raw := RowOf(b, step, body), Some(KeyOf(b, step));
            && row.key == Scoped(raw, b.ns) && row.key.Some? && row.ns == b.ns && row.body == body
            && DoStep(b, step, a)
               == (var o := Admit(a.st, row, raw);
                   if o.result.Err? then a.(failed := true)
                       else Attempt(o.st, Record(b, step, a.local, o.result.value), false))
  {
  }

  lemma {:induction false} StepKeeps(b: Bundle, step: Step, a: Attempt)
    requires InBundle(b, step) && Valid(a.st)
    ensures var next := DoStep(b, step, a);
            && Valid(next.st) && Extends(a.st.rows, next.st.rows)
            && (forall table :: table != StepTable(step) ==> Frozen(table, a.st.rows, next.st.rows))
            && (step.SourceStep? && !next.failed ==> SourceIsHome(b, next.st.rows, next.local))
  {
    hide Valid, Extends, Frozen, Admit, KeyOf, RowOf, DoStep, BodyOf;
    var body := BodyOf(b, step, a.st.rows, a.local);
    EverythingExtendsItself(a.st.rows);
    NothingAdded(a.st.rows);
    if body.Ok? {
      var row := RowOf(b, step, body.value);
      BodyTable(b, step, a.st.rows, a.local);
      StepIsAdmit(b, step, a, body.value);
      AdmitKeeps(a.st, row, Some(KeyOf(b, step)));
      AdmitAdds(a.st, row, Some(KeyOf(b, step)));
    } else {
      NoBodyNoStep(b, step, a);
    }
  }

  lemma NoBodyNoStep(b: Bundle, step: Step, a: Attempt)
    requires InBundle(b, step) && BodyOf(b, step, a.st.rows, a.local).Err?
    ensures DoStep(b, step, a) == a.(failed := true)
  {
  }

  lemma BodyTable(b: Bundle, step: Step, rows: Rows, local: Local)
    requires InBundle(b, step) && BodyOf(b, step, rows, local).Ok?
    ensures TableOf(BodyOf(b, step, rows, local).value) == StepTable(step)
  {
  }

  /**
   * Done again in a later store, a step wants the same columns, up to the source, and may still name its references.
   */
  lemma BodyAgain(b: Bundle, step: Step, a: Attempt, s: Rows, local: Local)
    requires InBundle(b, step) && !DoStep(b, step, a).failed
    requires Extends(a.st.rows, s) && Similar(local, a.local)
    requires step.ExcerptStep? ==> SourceIsHome(b, s, local)
    ensures BodyOf(b, step, a.st.rows, a.local).Ok? && BodyOf(b, step, s, local).Ok?
    ensures var body, again := BodyOf(b, step, a.st.rows, a.local).value, BodyOf(b, step, s, local).value;
            TableOf(again) == TableOf(body) == StepTable(step) && Natural(again) == Natural(body)
            && RelationshipsHold(s, References(again), b.ns)
            && (!step.ExcerptStep? || local == a.local ==> again == body)
  {
    var body := BodyOf(b, step, a.st.rows, a.local).value;
    assert RelationshipsHold(a.st.rows, References(body), b.ns);
    if step.ExcerptStep? || step.ClaimStep? {
      TopicAgain(a.st.rows, s, local.question);
    }
    ReferencesSurvive(a.st.rows, s, References(body), b.ns);
    if step.ExcerptStep? {
      var again := BodyOf(b, step, s, local).value;
      forall i | 0 <= i < |References(again)| ensures Present(s, References(again)[i], b.ns) {
        assert Present(s, References(body)[i], b.ns);
      }
    }
  }

  lemma TopicAgain(old_: Rows, new_: Rows, question: nat)
    requires Extends(old_, new_) && TopicOrQuestions(old_, None, question).Ok?
    ensures TopicOrQuestions(new_, None, question) == TopicOrQuestions(old_, None, question)
  {
  }

  /** A step that succeeded, done again in any later store: it succeeds, writes nothing and learns the same. */
  lemma {:induction false} StepAgain(b: Bundle, step: Step, a: Attempt, s: State, local: Local)
    requires InBundle(b, step) && Valid(a.st) && Valid(s) && !DoStep(b, step, a).failed
    requires Extends(DoStep(b, step, a).st.rows, s.rows) && Similar(local, a.local)
    requires step.TopicStep? || step.QuestionStep? ==> Frozen(StepTable(step), DoStep(b, step, a).st.rows, s.rows)
    requires step.ExcerptStep? ==> SourceIsHome(b, s.rows, local)
    ensures var again := DoStep(b, step, Attempt(s, local, false));
            && again.st == s && !again.failed && Similar(again.local, DoStep(b, step, a).local)
            && (step.SourceStep? ==> SourceIsHome(b, s.rows, again.local))
            && (step.SourceStep? && s == DoStep(b, step, a).st ==>
                  again.local.source == DoStep(b, step, a).local.source)
  {
    hide Valid, Extends, Frozen, KeyOf, RowOf, BodyOf, DoStep, Admit, RelationshipsHold, SourceIsHome;
    StepKeeps(b, step, a);
    ExtendsTransitive(a.st.rows, DoStep(b, step, a).st.rows, s.rows);
    BodyAgain(b, step, a, s.rows, local);
    var body, again := BodyOf(b, step, a.st.rows, a.local).value, BodyOf(b, step, s.rows, local).value;
    var row, row', raw := RowOf(b, step, body), RowOf(b, step, again), Some(KeyOf(b, step));
    StepIsAdmit(b, step, a, body);
    StepIsAdmit(b, step, Attempt(s, local, false), again);
    var id := Admit(a.st, row, raw).result.value;
    AdmitRefinds(a.st, row, raw, id, s, row');
    StepKeeps(b, step, Attempt(s, local, false));
    NaturalByTable(body);
    if !step.SourceStep? {
      SameRowRefound(a.st, row, raw, id, s);
    }
    if step.SourceStep? {
      AdmitIsIdempotent(a.st, row, raw);
    }
  }

  /** Sessions, excerpts, claims and reports are told apart by their keys alone. */
  lemma NaturalByTable(body: Body)
    ensures Natural(body) == NoNaturalKey <==> TableOf(body) in {Sessions, Excerpts, Claims, Reports}
  {
  }

  // ---------------------------------------------------------------- whole attempts

  lemma StepIsInBundle(b: Bundle, i: nat)
    requires i < Length(b)
    ensures InBundle(b, StepAt(b, i))
    ensures StepAt(b, i).ExcerptStep? ==> i > 0 && StepAt(b, i - 1) == SourceStep(StepAt(b, i).a)
  {
  }

  lemma {:induction false} ExecKeeps(b: Bundle, k: nat, st: State)
    requires k <= Length(b) && Valid(st)
    ensures Valid(Exec(b, k, st).st) && Extends(st.rows, Exec(b, k, st).st.rows)
  {
    hide Valid, Extends, Frozen, DoStep, InBundle, StepAt;
    EverythingExtendsItself(st.rows);
    if k > 0 {
      ExecKeeps(b, k - 1, st);
      var a := Exec(b, k - 1, st);
      if !a.failed {
        StepIsInBundle(b, k - 1);
        StepKeeps(b, StepAt(b, k - 1), a);
        ExtendsTransitive(st.rows, a.st.rows, Exec(b, k, st).st.rows);
      }
    }
  }

  lemma FrozenTransitive(table: Table, x: Rows, y: Rows, z: Rows)
    requires Frozen(table, x, y) && Frozen(table, y, z)
    ensures Frozen(table, x, z)
  {
  }

  lemma NothingAdded(rows: Rows)
    ensures forall table :: Frozen(table, rows, rows)
  {
  }

  /** From one point of an attempt to a later one, rows are only added, and topics and questions only by their steps. */
  lemma {:induction false} ExecGrows(b: Bundle, j: nat, k: nat, st: State)
    requires j <= k <= Length(b) && Valid(st) && !Exec(b, k, st).failed
    ensures !Exec(b, j, st).failed && Extends(Exec(b, j, st).st.rows, Exec(b, k, st).st.rows)
    ensures j >= 1 ==> Frozen(Topics, Exec(b, j, st).st.rows, Exec(b, k, st).st.rows)
    ensures j >= 2 ==> Frozen(Questions, Exec(b, j, st).st.rows, Exec(b, k, st).st.rows)
    decreases k
  {
    hide Valid, Extends, Frozen, DoStep, InBundle;
    EverythingExtendsItself(Exec(b, j, st).st.rows);
    NothingAdded(Exec(b, j, st).st.rows);
    if j < k {
      var step, a := StepAt(b, k - 1), Exec(b, k - 1, st);
      ExecGrows(b, j, k - 1, st);
      ExecKeeps(b, k - 1, st);
      StepIsInBundle(b, k - 1);
      StepKeeps(b, step, a);
      ExtendsTransitive(Exec(b, j, st).st.rows, a.st.rows, Exec(b, k, st).st.rows);
      forall table | table != StepTable(step) && Frozen(table, Exec(b, j, st).st.rows, a.st.rows)
        ensures Frozen(table, Exec(b, j, st).st.rows, Exec(b, k, st).st.rows)
      {
        assert Frozen(table, a.st.rows, Exec(b, k, st).st.rows);
        FrozenTransitive(table, Exec(b, j, st).st.rows, a.st.rows, Exec(b, k, st).st.rows);
      }
    }
  }

  /** `s` is what the first `k` transactions left, give or take changes of status and visibility. */
  ghost predicate LeftBy(b: Bundle, k: nat, st: State, s: State)
    requires k <= Length(b)
  {
    && Valid(st) && Valid(s) && !Exec(b, k, st).failed
    && s.nextId == Exec(b, k, st).st.nextId && s.rows.Keys == Exec(b, k, st).st.rows.Keys
    && Extends(Exec(b, k, st).st.rows, s.rows)
  }

  /** An attempt that starts from what an earlier one left goes through the same transactions and writes nothing. */
  lemma {:induction false} RepeatsQuietly(b: Bundle, n: nat, k: nat, st: State, s: State)
    requires n <= k <= Length(b) && LeftBy(b, k, st, s)
    ensures var again := Exec(b, n, s);
            && again.st == s && !again.failed && Similar(again.local, Exec(b, n, st).local)
            && (n > 0 && StepAt(b, n - 1).SourceStep? ==> SourceIsHome(b, s.rows, again.local))
            && (n > 0 && StepAt(b, n - 1).SourceStep? && s == Exec(b, n, st).st
                ==> again.local.source == Exec(b, n, st).local.source)
    decreases n
  {
    hide Valid, Extends, Frozen, DoStep, InBundle, SourceIsHome;
    if n > 0 {
      var step := StepAt(b, n - 1);
      RepeatsQuietly(b, n - 1, k, st, s);
      ExecGrows(b, n - 1, k, st);
      ExecGrows(b, n, k, st);
      ExecKeeps(b, n - 1, st);
      StepIsInBundle(b, n - 1);
      ExtendsTransitive(Exec(b, n, st).st.rows, Exec(b, k, st).st.rows, s.rows);
      FrozenToo(b, n, k, st, s);
      StepAgain(b, step, Exec(b, n - 1, st), s, Exec(b, n - 1, s).local);
    }
  }

  lemma {:induction false} FrozenToo(b: Bundle, n: nat, k: nat, st: State, s: State)
    requires 0 < n <= k <= Length(b) && LeftBy(b, k, st, s)
    ensures StepAt(b, n - 1).TopicStep? || StepAt(b, n - 1).QuestionStep?
            ==> Frozen(StepTable(StepAt(b, n - 1)), Exec(b, n, st).st.rows, s.rows)
  {
    ExecGrows(b, n, k, st);
  }

  // ---------------------------------------------------------------- crashes leave no trace

  /** In the same store, attempts that know the same do the same. */
  lemma SimilarStep(b: Bundle, step: Step, x: Attempt, y: Attempt)
    requires InBundle(b, step) && x.st == y.st && !x.failed && !y.failed && Similar(x.local, y.local)
    requires step.ExcerptStep? ==> x.local == y.local
    ensures var u, v := DoStep(b, step, x), DoStep(b, step, y);
            && u.st == v.st && u.failed == v.failed && Similar(u.local, v.local)
            && (step.SourceStep? && !u.failed ==> u.local.source == v.local.source)
  {
    assert BodyOf(b, step, x.st.rows, x.local) == BodyOf(b, step, y.st.rows, y.local);
    hide Admit, RowFrom, KeyOf;
  }

  lemma SimilarAndSourceAreEqual(l: Local, m: Local)
    requires Similar(l, m) && l.source == m.source
    ensures l == m
  {
  }

  /** An attempt that starts where another stopped goes on exactly as that one would have. */
  lemma {:induction false} ContinuesAlike(b: Bundle, n: nat, k: nat, st: State)
    requires k <= n <= Length(b) && Valid(st) && !Exec(b, k, st).failed
    ensures var x, y := Exec(b, n, Exec(b, k, st).st), Exec(b, n, st);
            && x.st == y.st && x.failed == y.failed && Similar(x.local, y.local)
            && (n > 0 && StepAt(b, n - 1).SourceStep? && !y.failed ==> x.local.source == y.local.source)
    decreases n
  {
    hide Valid, Extends, DoStep, InBundle, SourceIsHome, StepAt;
    var s := Exec(b, k, st).st;
    if n == k {
      ExecKeeps(b, k, st);
      EverythingExtendsItself(s.rows);
      RepeatsQuietly(b, n, k, st, s);
    } else {
      ContinuesAlike(b, n - 1, k, st);
      var x, y := Exec(b, n - 1, s), Exec(b, n - 1, st);
      StepIsInBundle(b, n - 1);
      if !y.failed {
        if StepAt(b, n - 1).ExcerptStep? {
          SimilarAndSourceAreEqual(x.local, y.local);
        }
        SimilarStep(b, StepAt(b, n - 1), x, y);
      }
    }
  }

  lemma {:induction false} FailureStopsEarlier(b: Bundle, n: nat, st: State) returns (k: nat)
    requires n <= Length(b)
    ensures k <= n && !Exec(b, k, st).failed && Exec(b, k, st).st == Exec(b, n, st).st
  {
    hide DoStep;
    if !Exec(b, n, st).failed {
      k := n;
    } else {
      k := FailureStopsEarlier(b, n - 1, st);
      if !Exec(b, n - 1, st).failed {
        FailedStepWritesNothing(b, StepAt(b, n - 1), Exec(b, n - 1, st));
      }
    }
  }

  lemma FailedStepWritesNothing(b: Bundle, step: Step, a: Attempt)
    requires InBundle(b, step) && DoStep(b, step, a).failed
    ensures DoStep(b, step, a).st == a.st
  {
  }

  /** The stores attempts of one bundle can leave: those on the way of the uninterrupted replay, and its end. */
  ghost predicate OnTheWay(b: Bundle, st: State, s: State) {
    || (exists k :: StoppedAt(b, k, st, s))
    || (!Exec(b, Length(b), st).failed && s == Answer(Exec(b, Length(b), st)))
  }

  ghost predicate StoppedAt(b: Bundle, k: nat, st: State, s: State) {
    k <= Length(b) && !Exec(b, k, st).failed && s == Exec(b, k, st).st
  }

  lemma {:induction false} AnsweredIsLeft(b: Bundle, st: State)
    requires Valid(st) && !Exec(b, Length(b), st).failed
    ensures LeftBy(b, Length(b), st, Answer(Exec(b, Length(b), st)))
  {
    hide Valid, Extends;
    var a := Exec(b, Length(b), st);
    ExecKeeps(b, Length(b), st);
    StatusKeeps(a.st, a.local.question, Answered);
  }

  /** From the answered store, no attempt writes anything, however far it gets. */
  lemma {:induction false} NothingLeftToDo(b: Bundle, cut: nat, st: State, s: State)
    requires Valid(st) && !Exec(b, Length(b), st).failed && s == Answer(Exec(b, Length(b), st))
    ensures CutOff(b, cut, s) == s && Complete(b, s) == Outcome(s, Ok(Exec(b, Length(b), st).local.report))
  {
    hide Valid, Extends, SourceIsHome, StepAt;
    var n := Length(b);
    AnsweredIsLeft(b, st);
    RepeatsQuietly(b, if cut <= n then cut else n, n, st, s);
    RepeatsQuietly(b, n, n, st, s);
    RepeatsQuietly(b, n - 1, n, st, s);
    hide Exec;
    assert Answer(Exec(b, n, s)) == s;
  }

  /** Stopped on the way, an attempt that is cut off again stops on the way again, and a whole one ends alike. */
  lemma StaysOnTheWay(b: Bundle, cut: nat, k: nat, st: State, s: State)
    requires Valid(st) && StoppedAt(b, k, st, s)
    ensures OnTheWay(b, st, CutOff(b, cut, s)) && Complete(b, s) == Complete(b, st)
  {
    hide Valid, Extends, SourceIsHome, StepAt;
    var n := Length(b);
    ContinuesAlike(b, n, k, st);
    if cut <= k {
      ExecKeeps(b, k, st);
      EverythingExtendsItself(s.rows);
      RepeatsQuietly(b, cut, k, st, s);
      assert StoppedAt(b, k, st, CutOff(b, cut, s));
    } else {
      var m := if cut <= n then cut else n;
      ContinuesAlike(b, m, k, st);
      var j := FailureStopsEarlier(b, m, st);
      assert StoppedAt(b, j, st, Exec(b, m, s).st);
      assert cut <= n ==> CutOff(b, cut, s) == Exec(b, m, s).st;
      hide Exec;
    }
  }

  lemma {:induction false} AttemptsStayOnTheWay(b: Bundle, cuts: seq<nat>, st: State, s: State)
    requires Valid(st) && OnTheWay(b, st, s)
    ensures Complete(b, Attempts(b, cuts, s)) == Complete(b, st)
    decreases |cuts|
  {
    hide Exec, CutOff, Complete, Valid;
    var cut := if cuts == [] then 0 else cuts[0];
    if k :| StoppedAt(b, k, st, s) {
      StaysOnTheWay(b, cut, k, st, s);
    } else {
      NothingLeftToDo(b, cut, st, s);
      CompleteEnds(b, st);
    }
    if cuts != [] {
      AttemptsStayOnTheWay(b, cuts[1..], st, CutOff(b, cuts[0], s));
    }
  }

  lemma CompleteEnds(b: Bundle, st: State)
    requires !Exec(b, Length(b), st).failed
    ensures var a := Exec(b, Length(b), st); Complete(b, st) == Outcome(Answer(a), Ok(a.local.report))
  {
  }

  /**
   * After any number of attempts of a bundle, each cut off at any point, one complete replay leaves the very store,
   * and returns the very result, of a replay that was never interrupted.
   */
  lemma {:induction false} CrashesLeaveNoTrace(b: Bundle, cuts: seq<nat>, st: State)
    requires Valid(st)
    ensures Complete(b, Attempts(b, cuts, st)) == Complete(b, st)
  {
    assert StoppedAt(b, 0, st, st);
    AttemptsStayOnTheWay(b, cuts, st, st);
  }

  /** A further replay, or any part of one, adds no row, changes none, and returns the same report. */
  lemma {:induction false} CompletedReplayIsFinal(b: Bundle, cuts: seq<nat>, st: State)
    requires Valid(st) && Complete(b, st).result.Ok?
    ensures var o := Complete(b, st); Attempts(b, cuts, o.st) == o.st && Complete(b, o.st) == o
    decreases |cuts|
  {
    var s := Complete(b, st).st;
    NothingLeftToDo(b, if cuts == [] then 0 else cuts[0], st, s);
    if cuts != [] {
      CompletedReplayIsFinal(b, cuts[1..], st);
    }
  }
}
