/**
 * When a replay succeeds, read off the bundle's own lists, and what rows it leaves: the columns are the bundle's, under
 * one question and one session.
 */
module ReplayMeaning {
  import opened PyText
  import opened ScopedKeys
  import opened RegistryStore
  import opened RegistryLaws
  import opened CreateMeaning
  import opened Replay
  import opened ReplayLaws
  import opened ReplayLinks

  // ---------------------------------------------------------------- the condition

  predicate AnnotationNamed(b: Bundle, temp: string) {
    exists i :: 0 <= i < |b.annotations| && b.annotations[i].tempId == temp
  }

  predicate FindingNamed(b: Bundle, temp: string) {
    exists j :: 0 <= j < |b.findings| && b.findings[j].tempId == temp
  }

  predicate NoneTwice(temps: seq<string>) {
    forall i, j :: 0 <= i < j < |temps| ==> temps[i] != temps[j]
  }

  ghost predicate KeyedSome(b: Bundle, rows: Rows, table: Table, raw: string) {
    exists id :: Keyed(b, rows, table, raw, id)
  }

  /** A finding cites annotations of the bundle, and none twice unless its claim is there already. */
  ghost predicate FindingIsSound(b: Bundle, rows: Rows, f: nat)
    requires f < |b.findings|
  {
    var cited, temp := b.findings[f].annotations, b.findings[f].tempId;
    && (forall p :: 0 <= p < |cited| ==> AnnotationNamed(b, cited[p]))
    && (IsFirst(b, f) ==> NoneTwice(cited) || KeyedSome(b, rows, Claims, b.queueId + ":claim:" + temp))
  }

  /** The report cites findings of the bundle, and none twice unless the report is there already. */
  ghost predicate ReportIsSound(b: Bundle, rows: Rows) {
    var cited := b.report.findings;
    && (forall p :: 0 <= p < |cited| ==> FindingNamed(b, cited[p]))
    && (NoneTwice(cited) || KeyedSome(b, rows, Reports, b.queueId + ":report"))
  }

  ghost predicate Sound(b: Bundle, rows: Rows) {
    (forall f :: 0 <= f < |b.findings| ==> FindingIsSound(b, rows, f)) && ReportIsSound(b, rows)
  }

  // ---------------------------------------------------------------- what an attempt holds in memory

  /** The topic, question, session and source an attempt goes by are stored in the bundle's namespace. */
  ghost predicate Grounded(b: Bundle, k: nat, a: Attempt)
    requires k <= Length(b)
  {
    && (k > 0 ==> StoredIn(a.st.rows, b.ns, Topics, a.local.topic))
    && (k > 1 ==> StoredIn(a.st.rows, b.ns, Questions, a.local.question))
    && (k > 2 ==> StoredIn(a.st.rows, b.ns, Sessions, a.local.session))
    && (k < Length(b) && StepAt(b, k).ExcerptStep? ==> StoredIn(a.st.rows, b.ns, Sources, a.local.source))
  }

  /** It has learned the excerpts and claims of the annotations and findings it has dealt with. */
  ghost predicate Named(b: Bundle, k: nat, local: Local) {
    && (forall t :: t in local.excerpts <==>
          exists i :: 0 <= i < |b.annotations| && 4 + 2 * i < k && b.annotations[i].tempId == t)
    && (forall t :: t in local.claims <==>
          exists j :: 0 <= j < |b.findings| && 3 + 2 * |b.annotations| + j < k && b.findings[j].tempId == t)
  }

  /** The transaction of a step, in the terms of its columns. */
  lemma StepTransacts(b: Bundle, step: Step, a: Attempt, body: Body)
    requires InBundle(b, step) && Valid(a.st) && BodyOf(b, step, a.st.rows, a.local) == Ok(body)
    ensures var row := RowOf(b, step, body);
            && row.ns == b.ns && row.key == Scoped(Some(KeyOf(b, step)), b.ns) && row.body == body
            && var o := Admit(a.st, row, Some(KeyOf(b, step)));
               && Transacts(a.st, row, o)
               && DoStep(b, step, a) == if o.result.Err? then a.(failed := true)
                                        else Attempt(o.st, Record(b, step, a.local, o.result.value), false)
  {
    hide Valid, Admit, Transacts, DoStep, BodyOf, RowOf, KeyOf;
    StepIsAdmit(b, step, a, body);
    AdmitTransacts(a.st, RowOf(b, step, body), Some(KeyOf(b, step)));
  }

  /** Whatever a step learns is a row of its table in the bundle's namespace. */
  lemma LearnedIsStored(b: Bundle, step: Step, a: Attempt)
    requires InBundle(b, step) && Valid(a.st) && !DoStep(b, step, a).failed
    ensures exists id :: StoredIn(DoStep(b, step, a).st.rows, b.ns, StepTable(step), id)
                         && DoStep(b, step, a).local == Record(b, step, a.local, id)
  {
    hide Valid, Admit, DoStep, RowOf, KeyOf, NamesStored, LinksOnce, Record;
    if BodyOf(b, step, a.st.rows, a.local).Err? {
      NoBodyNoStep(b, step, a);
    }
    var body := BodyOf(b, step, a.st.rows, a.local).value;
    BodyTable(b, step, a.st.rows, a.local);
    SameTable(body);
    hide BodyOf;
    StepTransacts(b, step, a, body);
  }

  lemma SameTable(body: Body)
    ensures TableFor(body) == TableOf(body)
  {
  }

  lemma {:induction false} StepGrounds(b: Bundle, k: nat, a: Attempt)
    requires k < Length(b) && Valid(a.st) && Grounded(b, k, a) && !DoStep(b, StepAt(b, k), a).failed
    ensures Grounded(b, k + 1, DoStep(b, StepAt(b, k), a))
  {
    hide Valid, Extends, DoStep, StepAt, StoredIn;
    var step := StepAt(b, k);
    var next := DoStep(b, step, a);
    StepIsInBundle(b, k);
    StepKeeps(b, step, a);
    LearnedIsStored(b, step, a);
    StoredStay(b, a, next);
    StepsInOrder(b, k);
  }

  lemma StepsInOrder(b: Bundle, k: nat)
    requires k < Length(b)
    ensures k == 0 <==> StepAt(b, k).TopicStep?
    ensures k == 1 <==> StepAt(b, k).QuestionStep?
    ensures k == 2 <==> StepAt(b, k).SessionStep?
    ensures k + 1 < Length(b) && StepAt(b, k + 1).ExcerptStep? ==> StepAt(b, k) == SourceStep(StepAt(b, k + 1).a)
    ensures StepAt(b, k).ReportStep? <==> k + 1 == Length(b)
  {
  }

  lemma StoredStay(b: Bundle, a: Attempt, next: Attempt)
    requires Extends(a.st.rows, next.st.rows)
    ensures forall table, id :: StoredIn(a.st.rows, b.ns, table, id) ==> StoredIn(next.st.rows, b.ns, table, id)
  {
  }

  lemma NamesLearned(b: Bundle, k: nat, local: Local, id: nat)
    requires k < Length(b) && Named(b, k, local)
    ensures Named(b, k + 1, Record(b, StepAt(b, k), local, id))
  {
    var step, next := StepAt(b, k), Record(b, StepAt(b, k), local, id);
    forall i | 0 <= i < |b.annotations| ensures 4 + 2 * i == k <==> step == ExcerptStep(i) { }
    forall j | 0 <= j < |b.findings| ensures 3 + 2 * |b.annotations| + j == k <==> step == ClaimStep(j) { }
    hide StepAt;
    forall t
      ensures t in next.excerpts <==>
                exists i :: 0 <= i < |b.annotations| && 4 + 2 * i < k + 1 && b.annotations[i].tempId == t
    {
      if step.ExcerptStep? && t == b.annotations[step.a].tempId {
        assert 4 + 2 * step.a < k + 1;
      }
      if i :| 0 <= i < |b.annotations| && 4 + 2 * i < k && b.annotations[i].tempId == t {
        assert 4 + 2 * i < k + 1;
      }
      if i :| 0 <= i < |b.annotations| && 4 + 2 * i < k + 1 && b.annotations[i].tempId == t && 4 + 2 * i >= k {
        assert step == ExcerptStep(i);
      }
    }
    forall t
      ensures t in next.claims <==>
                exists j :: 0 <= j < |b.findings| && 3 + 2 * |b.annotations| + j < k + 1 && b.findings[j].tempId == t
    {
      if step.ClaimStep? && t == b.findings[step.f].tempId {
        assert 3 + 2 * |b.annotations| + step.f < k + 1;
      }
      if j :| 0 <= j < |b.findings| && 3 + 2 * |b.annotations| + j < k && b.findings[j].tempId == t {
        assert 3 + 2 * |b.annotations| + j < k + 1;
      }
      if j :| 0 <= j < |b.findings| && 3 + 2 * |b.annotations| + j < k + 1 && b.findings[j].tempId == t
              && 3 + 2 * |b.annotations| + j >= k {
        assert step == ClaimStep(j);
      }
    }
  }

  lemma StepNames(b: Bundle, k: nat, a: Attempt)
    requires k < Length(b) && Valid(a.st) && Named(b, k, a.local) && !DoStep(b, StepAt(b, k), a).failed
    ensures Named(b, k + 1, DoStep(b, StepAt(b, k), a).local)
  {
    hide Valid, DoStep, StepAt, Named, StoredIn, Record;
    StepIsInBundle(b, k);
    LearnedIsStored(b, StepAt(b, k), a);
    var id :| DoStep(b, StepAt(b, k), a).local == Record(b, StepAt(b, k), a.local, id);
    NamesLearned(b, k, a.local, id);
  }

  // ---------------------------------------------------------------- when a step succeeds

  /** What a step still asks for, beyond what every attempt brings along. */
  ghost predicate Asks(b: Bundle, step: Step, rows: Rows)
    requires InBundle(b, step)
  {
    match step
    case ClaimStep(f) =>
      var cited := b.findings[f].annotations;
      && (forall p :: 0 <= p < |cited| ==> AnnotationNamed(b, cited[p]))
      && (NoneTwice(cited) || KeyedSome(b, rows, Claims, ClaimKey(b, b.findings[f].tempId)))
    case ReportStep => ReportIsSound(b, rows)
    case _ => true
  }

  /** Before the claims all excerpts are known, before the report all claims. */
  lemma AllNamed(b: Bundle, k: nat, local: Local)
    requires k < Length(b) && Named(b, k, local)
    ensures StepAt(b, k).ClaimStep? ==> forall t :: t in local.excerpts <==> AnnotationNamed(b, t)
    ensures StepAt(b, k).ReportStep? ==> forall t :: t in local.claims <==> FindingNamed(b, t)
  {
    assert StepAt(b, k).ClaimStep? ==> 3 + 2 * |b.annotations| <= k;
    assert StepAt(b, k).ReportStep? ==> k == 3 + 2 * |b.annotations| + |b.findings|;
  }

  lemma {:induction false} IdsSucceedIff(known: map<string, nat>, temps: seq<string>)
    ensures Ids(known, temps).Ok? <==> forall p :: 0 <= p < |temps| ==> temps[p] in known
    ensures Ids(known, temps).Ok? ==>
              |Ids(known, temps).value| == |temps|
              && forall p :: 0 <= p < |temps| ==> Ids(known, temps).value[p] == known[temps[p]]
  {
  }

  /** Different names have different rows, so ids repeat exactly where names do. */
  lemma IdsRepeatIff(b: Bundle, st: State, table: Table, head: string, known: map<string, nat>, temps: seq<string>)
    requires Valid(st) && "queue_" <= b.queueId && b.queueId <= head
    requires forall t :: t in known ==> Keyed(b, st.rows, table, head + t, known[t])
    requires forall p :: 0 <= p < |temps| ==> temps[p] in known
    ensures (forall i, j :: 0 <= i < j < |temps| ==> known[temps[i]] != known[temps[j]]) <==> NoneTwice(temps)
  {
    hide Valid, Keyed;
    forall i, j | 0 <= i < j < |temps| ensures known[temps[i]] == known[temps[j]] <==> temps[i] == temps[j] {
      if temps[i] != temps[j] && known[temps[i]] == known[temps[j]] {
        var x, y := head + temps[i], head + temps[j];
        assert x[|head|..] == temps[i] && y[|head|..] == temps[j];
        BundleKeysAreApart(b, x, y);
        OneKey(b, st.rows, table, x, y, known[temps[i]]);
      }
    }
  }

  lemma OneKey(b: Bundle, rows: Rows, table: Table, x: string, y: string, id: nat)
    requires Keyed(b, rows, table, x, id) && Keyed(b, rows, table, y, id)
    ensures Scoped(Some(x), b.ns) == Scoped(Some(y), b.ns)
  {
  }

  lemma QuestionHasTopic(st: State, b: Bundle, question: nat)
    requires Valid(st) && StoredIn(st.rows, b.ns, Questions, question)
    ensures TopicOrQuestions(st.rows, None, question).Ok?
    ensures StoredIn(st.rows, b.ns, Topics, TopicOrQuestions(st.rows, None, question).value)
  {
    var r := Ref(Questions, question);
    StoredRowsNameStoredRows(st, r);
    assert TableOf(st.rows[r].body) == Questions;
  }

  lemma ClaimsAreKeyed(b: Bundle, a: Attempt)
    requires Known(b, a)
    ensures forall t :: t in a.local.excerpts ==>
              Keyed(b, a.st.rows, Excerpts, b.queueId + ":excerpt:" + t, a.local.excerpts[t])
    ensures forall t :: t in a.local.claims ==>
              Keyed(b, a.st.rows, Claims, b.queueId + ":claim:" + t, a.local.claims[t])
  {
  }

  lemma AllKeyedAreStored(b: Bundle, rows: Rows, table: Table, head: string, known: map<string, nat>,
                          temps: seq<string>, ids: seq<nat>)
    requires forall t :: t in known ==> Keyed(b, rows, table, head + t, known[t])
    requires Ids(known, temps) == Ok(ids)
    ensures AllStoredIn(rows, b.ns, table, ids)
  {
    forall i | 0 <= i < |ids| ensures StoredIn(rows, b.ns, table, ids[i]) {
      assert Keyed(b, rows, table, head + temps[i], known[temps[i]]);
    }
  }

  /** A row of the table carries the step's key exactly if it is keyed. */
  lemma CarriedIsKeyed(b: Bundle, rows: Rows, row: Row, raw: string)
    requires row.ns == b.ns && row.key == Scoped(Some(raw), b.ns)
    ensures IsCarried(rows, row) <==> KeyedSome(b, rows, TableFor(row.body), raw)
  {
    forall id: nat
      ensures Carries(rows, TableFor(row.body), row.ns, row.key, id) <==> Keyed(b, rows, TableFor(row.body), raw, id)
    {
    }
  }

  /** Claims: the excerpts cited are known and no id comes twice, or the claim is there. */
  lemma ClaimStepSucceedsIff(b: Bundle, k: nat, a: Attempt)
    requires k < Length(b) && Valid(a.st) && Grounded(b, k, a) && Named(b, k, a.local) && Known(b, a)
    requires "queue_" <= b.queueId && StepAt(b, k).ClaimStep? && !a.failed
    ensures InBundle(b, StepAt(b, k))
    ensures !DoStep(b, StepAt(b, k), a).failed <==> Asks(b, StepAt(b, k), a.st.rows)
  {
    StepIsInBundle(b, k);
    StepsInOrder(b, k);
    AllNamed(b, k, a.local);
    ClaimsAreKeyed(b, a);
    hide Valid, Grounded, Named, Known, StepAt, DoStep, RowOf, AnnotationNamed, NoneTwice, KeyedSome, Transacts, KeyOf,
         Keyed;
    ClaimBody(b, k, a);
    var f := StepAt(b, k).f;
    var cited := b.findings[f].annotations;
    IdsSucceedIff(a.local.excerpts, cited);
    var body := BodyOf(b, ClaimStep(f), a.st.rows, a.local);
    if body.Err? {
      NoBodyNoStep(b, ClaimStep(f), a);
    } else {
      ClaimRow(b, k, a, f, body.value);
    }
  }

  lemma ClaimBody(b: Bundle, k: nat, a: Attempt)
    requires k < Length(b) && Valid(a.st) && Grounded(b, k, a) && StepAt(b, k).ClaimStep?
    ensures InBundle(b, StepAt(b, k))
    ensures var cited := b.findings[StepAt(b, k).f].annotations;
            BodyOf(b, StepAt(b, k), a.st.rows, a.local).Ok? <==> Ids(a.local.excerpts, cited).Ok?
    ensures BodyOf(b, StepAt(b, k), a.st.rows, a.local).Ok? ==>
              var body := BodyOf(b, StepAt(b, k), a.st.rows, a.local).value;
              && body == Claim(a.local.question, Some(a.local.session), body.topic, body.excerpts)
              && Ids(a.local.excerpts, b.findings[StepAt(b, k).f].annotations) == Ok(body.excerpts)
              && StoredIn(a.st.rows, b.ns, Topics, body.topic)
              && StoredIn(a.st.rows, b.ns, Questions, body.question)
              && StoredIn(a.st.rows, b.ns, Sessions, a.local.session)
  {
    StepIsInBundle(b, k);
    hide Valid, StoredIn, Ids, TopicOrQuestions;
    QuestionHasTopic(a.st, b, a.local.question);
  }

  lemma ClaimRow(b: Bundle, k: nat, a: Attempt, f: nat, body: Body)
    requires f < |b.findings| && Valid(a.st) && Known(b, a) && "queue_" <= b.queueId && !a.failed
    requires BodyOf(b, ClaimStep(f), a.st.rows, a.local) == Ok(body)
    requires body.Claim? && body == Claim(a.local.question, Some(a.local.session), body.topic, body.excerpts)
    requires Ids(a.local.excerpts, b.findings[f].annotations) == Ok(body.excerpts)
    requires StoredIn(a.st.rows, b.ns, Topics, body.topic) && StoredIn(a.st.rows, b.ns, Questions, body.question)
    requires StoredIn(a.st.rows, b.ns, Sessions, a.local.session)
    ensures !DoStep(b, ClaimStep(f), a).failed <==>
              NoneTwice(b.findings[f].annotations)
              || KeyedSome(b, a.st.rows, Claims, ClaimKey(b, b.findings[f].tempId))
  {
    hide Valid, DoStep, RowOf, BodyOf, KeyOf, Keyed, StoredIn, KeyedSome, IsCarried, Admit, ClaimKey;
    ClaimsAreKeyed(b, a);
    var cited := b.findings[f].annotations;
    IdsSucceedIff(a.local.excerpts, cited);
    StepTransacts(b, ClaimStep(f), a, body);
    ClaimStepKey(b, f);
    var row := RowOf(b, ClaimStep(f), body);
    CarriedIsKeyed(b, a.st.rows, row, KeyOf(b, ClaimStep(f)));
    AllKeyedAreStored(b, a.st.rows, Excerpts, b.queueId + ":excerpt:", a.local.excerpts, cited, body.excerpts);
    IdsRepeatIff(b, a.st, Excerpts, b.queueId + ":excerpt:", a.local.excerpts, cited);
    hide AllStoredIn, NoneTwice, Ids;
  }

  lemma ReportBody(b: Bundle, a: Attempt)
    requires StoredIn(a.st.rows, b.ns, Questions, a.local.question)
        && StoredIn(a.st.rows, b.ns, Sessions, a.local.session)
    ensures BodyOf(b, ReportStep, a.st.rows, a.local).Ok? <==> Ids(a.local.claims, b.report.findings).Ok?
    ensures BodyOf(b, ReportStep, a.st.rows, a.local).Ok? ==>
              var body := BodyOf(b, ReportStep, a.st.rows, a.local).value;
              && body == Report(a.local.question, Some(a.local.session), None, body.claims)
              && Ids(a.local.claims, b.report.findings) == Ok(body.claims)
  {
    hide StoredIn, Ids;
  }

  /** The report: the claims cited are known and no id comes twice, or the report is there. */
  lemma ReportStepSucceedsIff(b: Bundle, k: nat, a: Attempt)
    requires k < Length(b) && Valid(a.st) && Grounded(b, k, a) && Named(b, k, a.local) && Known(b, a)
    requires "queue_" <= b.queueId && StepAt(b, k).ReportStep? && !a.failed
    ensures !DoStep(b, ReportStep, a).failed <==> ReportIsSound(b, a.st.rows)
  {
    StepsInOrder(b, k);
    AllNamed(b, k, a.local);
    hide Valid, Named, Known, StepAt, DoStep, RowOf, FindingNamed, NoneTwice, KeyedSome, Transacts, KeyOf, Keyed,
         BodyOf, StoredIn;
    ReportBody(b, a);
    var cited := b.report.findings;
    IdsSucceedIff(a.local.claims, cited);
    if Ids(a.local.claims, cited).Err? {
      NoBodyNoStep(b, ReportStep, a);
    } else {
      ReportRow(b, a, BodyOf(b, ReportStep, a.st.rows, a.local).value);
    }
    hide Grounded, Ids;
  }

  lemma ReportRow(b: Bundle, a: Attempt, body: Body)
    requires Valid(a.st) && Known(b, a) && "queue_" <= b.queueId && !a.failed
    requires BodyOf(b, ReportStep, a.st.rows, a.local) == Ok(body)
    requires body.Report? && body == Report(a.local.question, Some(a.local.session), None, body.claims)
    requires Ids(a.local.claims, b.report.findings) == Ok(body.claims)
    requires StoredIn(a.st.rows, b.ns, Questions, body.question) && StoredIn(a.st.rows, b.ns, Sessions, a.local.session)
    ensures !DoStep(b, ReportStep, a).failed <==>
              NoneTwice(b.report.findings) || KeyedSome(b, a.st.rows, Reports, b.queueId + ":report")
  {
    hide Valid, DoStep, RowOf, BodyOf, Keyed, StoredIn, KeyedSome, IsCarried, Admit;
    ClaimsAreKeyed(b, a);
    var cited := b.report.findings;
    IdsSucceedIff(a.local.claims, cited);
    StepTransacts(b, ReportStep, a, body);
    var row := RowOf(b, ReportStep, body);
    CarriedIsKeyed(b, a.st.rows, row, b.queueId + ":report");
    AllKeyedAreStored(b, a.st.rows, Claims, b.queueId + ":claim:", a.local.claims, cited, body.claims);
    IdsRepeatIff(b, a.st, Claims, b.queueId + ":claim:", a.local.claims, cited);
    hide AllStoredIn, NoneTwice, Ids;
  }

  /** The other steps always succeed. */
  lemma OtherStepsSucceed(b: Bundle, k: nat, a: Attempt)
    requires k < Length(b) && Valid(a.st) && Grounded(b, k, a) && !a.failed
    requires !StepAt(b, k).ClaimStep? && !StepAt(b, k).ReportStep?
    ensures InBundle(b, StepAt(b, k)) && !DoStep(b, StepAt(b, k), a).failed
  {
    StepIsInBundle(b, k);
    StepsInOrder(b, k);
    var step := StepAt(b, k);
    if step.ExcerptStep? {
      ExcerptIsGrounded(b, k);
    }
    hide StepAt;
    QuestionKnowsTopic(b, step, a);
    hide Valid, StoredIn, TopicOrQuestions, DoStep, RowOf, IsCarried, HasTwin, Admit, KeyOf;
    var body := BodyOf(b, step, a.st.rows, a.local).value;
    StepTransacts(b, step, a, body);
  }

  lemma ExcerptIsGrounded(b: Bundle, k: nat)
    requires k < Length(b) && StepAt(b, k).ExcerptStep?
    ensures k > 2
  {
  }

  lemma QuestionKnowsTopic(b: Bundle, step: Step, a: Attempt)
    requires Valid(a.st)
    ensures step.ExcerptStep? && StoredIn(a.st.rows, b.ns, Questions, a.local.question) ==>
              && TopicOrQuestions(a.st.rows, None, a.local.question).Ok?
              && StoredIn(a.st.rows, b.ns, Topics, TopicOrQuestions(a.st.rows, None, a.local.question).value)
  {
    hide Valid, TopicOrQuestions;
    if step.ExcerptStep? && StoredIn(a.st.rows, b.ns, Questions, a.local.question) {
      QuestionHasTopic(a.st, b, a.local.question);
    }
  }

  lemma StepSucceedsIff(b: Bundle, k: nat, a: Attempt)
    requires k < Length(b) && Valid(a.st) && Grounded(b, k, a) && Named(b, k, a.local) && Known(b, a)
    requires "queue_" <= b.queueId && !a.failed
    ensures InBundle(b, StepAt(b, k))
    ensures !DoStep(b, StepAt(b, k), a).failed <==> Asks(b, StepAt(b, k), a.st.rows)
  {
    hide Valid, Grounded, Named, Known, DoStep, StepAt, ReportIsSound;
    StepIsInBundle(b, k);
    if StepAt(b, k).ClaimStep? {
      ClaimStepSucceedsIff(b, k, a);
    } else if StepAt(b, k).ReportStep? {
      ReportStepSucceedsIff(b, k, a);
    } else {
      OtherStepsSucceed(b, k, a);
    }
  }

  // ---------------------------------------------------------------- whole replays

  /** Which claim and report keys are taken after `k` transactions. */
  ghost predicate KeysTaken(b: Bundle, k: nat, start: Rows, rows: Rows) {
    && (forall f :: 0 <= f < |b.findings| ==>
          (KeyedSome(b, rows, Claims, ClaimKey(b, b.findings[f].tempId)) <==>
             KeyedSome(b, start, Claims, ClaimKey(b, b.findings[f].tempId)) || Earlier(b, k, f)))
    && (k < Length(b) ==> (KeyedSome(b, rows, Reports, ReportKey(b)) <==> KeyedSome(b, start, Reports, ReportKey(b))))
  }

  /** A finding of the same temporary id has been dealt with. */
  predicate Earlier(b: Bundle, k: nat, f: nat)
    requires f < |b.findings|
  {
    exists g :: 0 <= g < |b.findings| && 3 + 2 * |b.annotations| + g < k && b.findings[g].tempId == b.findings[f].tempId
  }

  lemma FrozenKeys(b: Bundle, old_: Rows, new_: Rows, table: Table, raw: string)
    requires Extends(old_, new_)
    ensures KeyedSome(b, old_, table, raw) ==> KeyedSome(b, new_, table, raw)
    ensures Frozen(table, old_, new_) ==> (KeyedSome(b, old_, table, raw) <==> KeyedSome(b, new_, table, raw))
  {
    hide Extends, Frozen, Keyed;
    if id :| Keyed(b, old_, table, raw, id) {
      KeyedSurvives(b, old_, new_, table, raw, id);
    } else if Frozen(table, old_, new_) {
      NoneKeyed(b, old_, table, raw);
      AbsentSurvives(b, old_, new_, table, raw);
      StillNone(b, new_, table, raw);
    }
  }

  lemma NoneKeyed(b: Bundle, rows: Rows, table: Table, raw: string)
    requires !KeyedSome(b, rows, table, raw)
    ensures Absent(b, rows, table, raw)
  {
  }

  lemma StillNone(b: Bundle, rows: Rows, table: Table, raw: string)
    requires Absent(b, rows, table, raw)
    ensures !KeyedSome(b, rows, table, raw)
  {
  }

  lemma OtherStepKeys(b: Bundle, k: nat, start: Rows, old_: Rows, new_: Rows)
    requires k < Length(b) && KeysTaken(b, k, start, old_) && Extends(old_, new_)
    requires StepTable(StepAt(b, k)) != Claims
    requires forall table :: table != StepTable(StepAt(b, k)) ==> Frozen(table, old_, new_)
    ensures KeysTaken(b, k + 1, start, new_)
  {
    hide Extends, Frozen, KeyedSome, ClaimKey;
    StepsInOrder(b, k);
    forall f: nat | f < |b.findings|
      ensures KeyedSome(b, new_, Claims, ClaimKey(b, b.findings[f].tempId))
         <==> KeyedSome(b, start, Claims, ClaimKey(b, b.findings[f].tempId)) || Earlier(b, k + 1, f)
    {
      FrozenKeys(b, old_, new_, Claims, ClaimKey(b, b.findings[f].tempId));
      NotYetEarlier(b, k, f);
    }
    if k + 1 < Length(b) {
      NoReportYet(b, k);
      FrozenKeys(b, old_, new_, Reports, ReportKey(b));
    }
  }

  lemma NoReportYet(b: Bundle, k: nat)
    requires k + 1 < Length(b)
    ensures StepTable(StepAt(b, k)) != Reports
  {
  }

  lemma NotYetEarlier(b: Bundle, k: nat, f: nat)
    requires k < Length(b) && f < |b.findings|
    ensures Earlier(b, k, f) ==> Earlier(b, k + 1, f)
    ensures !StepAt(b, k).ClaimStep? ==> (Earlier(b, k + 1, f) <==> Earlier(b, k, f))
    ensures StepAt(b, k).ClaimStep? ==>
              (Earlier(b, k + 1, f) <==>
                 Earlier(b, k, f) || b.findings[StepAt(b, k).f].tempId == b.findings[f].tempId)
  {
    StepIsInBundle(b, k);
    if g :| 0 <= g < |b.findings| && 3 + 2 * |b.annotations| + g < k && b.findings[g].tempId == b.findings[f].tempId {
      assert 3 + 2 * |b.annotations| + g < k + 1;
    }
    if g :| 0 <= g < |b.findings| && 3 + 2 * |b.annotations| + g < k + 1
            && b.findings[g].tempId == b.findings[f].tempId {
      assert 3 + 2 * |b.annotations| + g == k ==> StepAt(b, k) == ClaimStep(g);
    }
    if StepAt(b, k).ClaimStep? {
      assert 3 + 2 * |b.annotations| + StepAt(b, k).f < k + 1;
    }
  }

  lemma {:induction false} ClaimStepKeys(b: Bundle, k: nat, start: Rows, a: Attempt)
    requires k < Length(b) && Valid(a.st) && KeysTaken(b, k, start, a.st.rows) && "queue_" <= b.queueId
    requires StepAt(b, k).ClaimStep? && !DoStep(b, StepAt(b, k), a).failed
    ensures KeysTaken(b, k + 1, start, DoStep(b, StepAt(b, k), a).st.rows)
  {
    hide Valid, Extends, Frozen, DoStep, KeyedSome, ClaimKey, StepAt, Earlier;
    StepIsInBundle(b, k);
    StepsInOrder(b, k);
    var step, rows := StepAt(b, k), a.st.rows;
    var next := DoStep(b, step, a).st.rows;
    StepKeeps(b, step, a);
    forall f: nat | f < |b.findings|
      ensures KeyedSome(b, next, Claims, ClaimKey(b, b.findings[f].tempId))
         <==> KeyedSome(b, start, Claims, ClaimKey(b, b.findings[f].tempId)) || Earlier(b, k + 1, f)
    {
      NotYetEarlier(b, k, f);
      OneClaimAdded(b, step.f, b.findings[f].tempId, a);
    }
    FrozenKeys(b, rows, next, Reports, ReportKey(b));
  }

  lemma OneClaimAdded(b: Bundle, f: nat, temp: string, a: Attempt)
    requires f < |b.findings| && Valid(a.st) && "queue_" <= b.queueId && !DoStep(b, ClaimStep(f), a).failed
    ensures KeyedSome(b, DoStep(b, ClaimStep(f), a).st.rows, Claims, ClaimKey(b, temp)) <==>
              KeyedSome(b, a.st.rows, Claims, ClaimKey(b, temp)) || temp == b.findings[f].tempId
  {
    hide Valid, Extends, DoStep, ClaimKey, Keyed, RowOf, BodyOf, Absent;
    var rows, next := a.st.rows, DoStep(b, ClaimStep(f), a).st.rows;
    StepKeeps(b, ClaimStep(f), a);
    StepLeavesKey(b, ClaimStep(f), a);
    ClaimStepKey(b, f);
    FrozenKeys(b, rows, next, Claims, ClaimKey(b, temp));
    var own := b.findings[f].tempId;
    var id :| Keyed(b, next, Claims, ClaimKey(b, own), id)
              && (next == rows
                  || next == rows[Ref(Claims, id) := RowOf(b, ClaimStep(f),
                                                           BodyOf(b, ClaimStep(f), rows, a.local).value)]);
    if temp != own && !KeyedSome(b, rows, Claims, ClaimKey(b, temp)) {
      NoneKeyed(b, rows, Claims, ClaimKey(b, temp));
      AnotherClaimAbsent(b, rows, next, own, temp, id);
      StillNone(b, next, Claims, ClaimKey(b, temp));
    }
  }

  lemma AnotherClaimAbsent(b: Bundle, old_: Rows, new_: Rows, own: string, temp: string, id: nat)
    requires "queue_" <= b.queueId && own != temp && Keyed(b, new_, Claims, ClaimKey(b, own), id)
    requires Extends(old_, new_) && forall r :: r in new_ && r.table == Claims && r != Ref(Claims, id) ==> r in old_
    requires Absent(b, old_, Claims, ClaimKey(b, temp))
    ensures Absent(b, new_, Claims, ClaimKey(b, temp))
  {
    hide ClaimKey;
    ClaimKeysAreApart(b, own, temp);
    forall x ensures !Keyed(b, new_, Claims, ClaimKey(b, temp), x) {
      if x != id && Ref(Claims, x) in old_ {
        FixedDecides(old_[Ref(Claims, x)], new_[Ref(Claims, x)]);
        assert !Keyed(b, old_, Claims, ClaimKey(b, temp), x);
      }
    }
  }

  /** Everything the success of the next step rests on. */
  ghost predicate Standing(b: Bundle, k: nat, start: Rows, a: Attempt)
    requires k <= Length(b)
  {
    Valid(a.st) && !a.failed && Grounded(b, k, a) && Named(b, k, a.local) && Known(b, a)
    && KeysTaken(b, k, start, a.st.rows)
  }

  lemma NothingStanding(b: Bundle, st: State)
    requires Valid(st)
    ensures Standing(b, 0, st.rows, Exec(b, 0, st))
  {
    hide Valid, KeyedSome;
    assert forall f :: 0 <= f < |b.findings| ==> !Earlier(b, 0, f);
  }

  lemma {:induction false} StepStands(b: Bundle, k: nat, start: Rows, a: Attempt)
    requires k < Length(b) && "queue_" <= b.queueId && Standing(b, k, start, a) && !DoStep(b, StepAt(b, k), a).failed
    ensures Standing(b, k + 1, start, DoStep(b, StepAt(b, k), a))
  {
    hide Valid, Extends, Frozen, Grounded, Named, Known, KeysTaken, DoStep, StepAt;
    StepIsInBundle(b, k);
    StepKeeps(b, StepAt(b, k), a);
    StepGrounds(b, k, a);
    StepNames(b, k, a);
    StepKeepsKnown(b, k, a);
    if StepAt(b, k).ClaimStep? {
      ClaimStepKeys(b, k, start, a);
    } else {
      OtherStepKeys(b, k, start, a.st.rows, DoStep(b, StepAt(b, k), a).st.rows);
    }
  }

  /** The step at `k` asks for what can be read off before the replay. */
  lemma AsksWhatIsSound(b: Bundle, k: nat, start: Rows, rows: Rows)
    requires k < Length(b) && KeysTaken(b, k, start, rows)
    ensures InBundle(b, StepAt(b, k))
    ensures StepAt(b, k).ClaimStep? ==> (Asks(b, StepAt(b, k), rows) <==> FindingIsSound(b, start, StepAt(b, k).f))
    ensures StepAt(b, k).ReportStep? ==> (Asks(b, StepAt(b, k), rows) <==> ReportIsSound(b, start))
  {
    StepIsInBundle(b, k);
    hide KeyedSome, NoneTwice, AnnotationNamed, FindingNamed;
    if StepAt(b, k).ClaimStep? {
      FirstIsNotEarlier(b, k);
    }
  }

  lemma FirstIsNotEarlier(b: Bundle, k: nat)
    requires k < Length(b) && StepAt(b, k).ClaimStep?
    ensures StepAt(b, k).f < |b.findings|
    ensures Earlier(b, k, StepAt(b, k).f) <==> !IsFirst(b, StepAt(b, k).f)
  {
    StepIsInBundle(b, k);
    var f := StepAt(b, k).f;
    assert k == 3 + 2 * |b.annotations| + f;
    if i :| 0 <= i < f && b.findings[i].tempId == b.findings[f].tempId {
      assert 3 + 2 * |b.annotations| + i < k;
    }
  }

  /** The steps before `k` succeed exactly if what they ask for is sound. */
  ghost predicate SoundUpTo(b: Bundle, k: nat, rows: Rows) {
    && (forall f :: 0 <= f < |b.findings| && 3 + 2 * |b.annotations| + f < k ==> FindingIsSound(b, rows, f))
    && (k >= Length(b) ==> ReportIsSound(b, rows))
  }

  lemma SoundStep(b: Bundle, k: nat, rows: Rows)
    requires k < Length(b)
    ensures InBundle(b, StepAt(b, k))
    ensures SoundUpTo(b, k + 1, rows) <==>
              && SoundUpTo(b, k, rows)
              && (StepAt(b, k).ClaimStep? ==> FindingIsSound(b, rows, StepAt(b, k).f))
              && (StepAt(b, k).ReportStep? ==> ReportIsSound(b, rows))
  {
    StepIsInBundle(b, k);
    hide FindingIsSound, ReportIsSound;
    forall f: nat | f < |b.findings| ensures 3 + 2 * |b.annotations| + f == k <==> StepAt(b, k) == ClaimStep(f) { }
  }

  lemma {:induction false} ExecSucceedsIff(b: Bundle, k: nat, st: State)
    requires k <= Length(b) && Valid(st) && "queue_" <= b.queueId
    ensures !Exec(b, k, st).failed <==> SoundUpTo(b, k, st.rows)
    ensures !Exec(b, k, st).failed ==> Standing(b, k, st.rows, Exec(b, k, st))
  {
    hide Valid, Standing, DoStep, SoundUpTo, StepAt, FindingIsSound, ReportIsSound, Asks;
    if k == 0 {
      NothingStanding(b, st);
      NothingAsked(b, st.rows);
    } else {
      ExecSucceedsIff(b, k - 1, st);
      SoundStep(b, k - 1, st.rows);
      var a := Exec(b, k - 1, st);
      if !a.failed {
        StandingStep(b, k - 1, st.rows, a);
        if !DoStep(b, StepAt(b, k - 1), a).failed {
          StepStands(b, k - 1, st.rows, a);
        }
      }
    }
  }

  lemma NothingAsked(b: Bundle, rows: Rows)
    ensures SoundUpTo(b, 0, rows)
  {
  }

  lemma StandingStep(b: Bundle, k: nat, start: Rows, a: Attempt)
    requires k < Length(b) && "queue_" <= b.queueId && Standing(b, k, start, a)
    ensures InBundle(b, StepAt(b, k))
    ensures !DoStep(b, StepAt(b, k), a).failed <==>
              && (StepAt(b, k).ClaimStep? ==> FindingIsSound(b, start, StepAt(b, k).f))
              && (StepAt(b, k).ReportStep? ==> ReportIsSound(b, start))
  {
    hide Valid, Grounded, Named, Known, KeysTaken, DoStep, StepAt, FindingIsSound, ReportIsSound;
    StepSucceedsIff(b, k, a);
    AsksWhatIsSound(b, k, start, a.st.rows);
    OthersAskNothing(b, StepAt(b, k), a.st.rows);
    hide Asks;
  }

  lemma OthersAskNothing(b: Bundle, step: Step, rows: Rows)
    requires InBundle(b, step)
    ensures !step.ClaimStep? && !step.ReportStep? ==> Asks(b, step, rows)
  {
  }

  /**
   * A replay succeeds, whatever crashed attempts came before it, exactly if every finding cites annotations of the
   * bundle and the report cites its findings, none of them twice but where the claim or the report is stored already.
   */
  lemma ReplaySucceedsIff(b: Bundle, cuts: seq<nat>, st: State)
    requires Valid(st) && "queue_" <= b.queueId
    ensures Complete(b, Attempts(b, cuts, st)).result.Ok? <==> Sound(b, st.rows)
  {
    hide Valid, Exec, Standing, FindingIsSound, ReportIsSound;
    CrashesLeaveNoTrace(b, cuts, st);
    ExecSucceedsIff(b, Length(b), st);
  }

  /** What is asked on an empty store, where no key is taken. */
  predicate CitesItsOwn(b: Bundle, f: nat)
    requires f < |b.findings|
  {
    var cited := b.findings[f].annotations;
    && (forall p :: 0 <= p < |cited| ==> AnnotationNamed(b, cited[p]))
    && (IsFirst(b, f) ==> NoneTwice(cited))
  }

  lemma SoundOnEmpty(b: Bundle)
    ensures forall f: nat :: f < |b.findings| ==> (FindingIsSound(b, EMPTY.rows, f) <==> CitesItsOwn(b, f))
    ensures ReportIsSound(b, EMPTY.rows) <==>
              && (forall p :: 0 <= p < |b.report.findings| ==> FindingNamed(b, b.report.findings[p]))
              && NoneTwice(b.report.findings)
  {
    EmptyHolds(b);
    hide KeyedSome, AnnotationNamed, FindingNamed, NoneTwice, IsFirst;
  }

  lemma EmptyHolds(b: Bundle)
    ensures Valid(EMPTY) && forall table, raw :: !KeyedSome(b, EMPTY.rows, table, raw)
  {
  }

  /**
   * On an empty store: all is cited from the bundle, and the first finding of each id and the report cite none twice.
   */
  lemma FirstReplaySucceedsIff(b: Bundle, cuts: seq<nat>)
    requires "queue_" <= b.queueId
    ensures Complete(b, Attempts(b, cuts, EMPTY)).result.Ok? <==>
              && (forall f: nat :: f < |b.findings| ==> CitesItsOwn(b, f))
              && (forall p :: 0 <= p < |b.report.findings| ==> FindingNamed(b, b.report.findings[p]))
              && NoneTwice(b.report.findings)
  {
    hide Attempts, Complete, FindingNamed, NoneTwice, FindingIsSound, ReportIsSound, CitesItsOwn;
    EmptyHolds(b);
    hide Valid, KeyedSome;
    SoundOnEmpty(b);
    ReplaySucceedsIff(b, cuts, EMPTY);
  }

  // ---------------------------------------------------------------- the rows a replay leaves

  /** Replaying adds rows and touches none. */
  ghost predicate OnlyAdds(old_: Rows, new_: Rows) {
    forall r :: r in old_ ==> r in new_ && new_[r] == old_[r]
  }

  lemma StepOnlyAdds(b: Bundle, step: Step, a: Attempt)
    requires InBundle(b, step) && Valid(a.st)
    ensures OnlyAdds(a.st.rows, DoStep(b, step, a).st.rows)
  {
    hide RelationshipsHold, FindExisting, KeyTaken, LinksAreDistinct, BodyOf;
  }

  lemma {:induction false} ExecOnlyAdds(b: Bundle, j: nat, k: nat, st: State)
    requires j <= k <= Length(b) && Valid(st)
    ensures OnlyAdds(Exec(b, j, st).st.rows, Exec(b, k, st).st.rows)
    decreases k
  {
    hide Valid, Extends, DoStep, StepAt;
    if j < k {
      ExecOnlyAdds(b, j, k - 1, st);
      ExecKeeps(b, k - 1, st);
      StepIsInBundle(b, k - 1);
      if !Exec(b, k - 1, st).failed {
        StepOnlyAdds(b, StepAt(b, k - 1), Exec(b, k - 1, st));
      }
    }
  }

  /** The first transaction of its table with its key. */
  ghost predicate FirstOfItsKey(b: Bundle, k: nat) {
    && k < Length(b) && StepTable(StepAt(b, k)) in {Sessions, Excerpts, Claims, Reports}
    && forall i :: 0 <= i < k && StepTable(StepAt(b, i)) == StepTable(StepAt(b, k)) ==>
         KeyOf(b, StepAt(b, i)) != KeyOf(b, StepAt(b, k))
  }

  lemma OtherKeyStaysAbsent(b: Bundle, step: Step, a: Attempt, raw: string)
    requires InBundle(b, step) && Valid(a.st) && "queue_" <= b.queueId && b.queueId <= raw
    requires !DoStep(b, step, a).failed && StepTable(step) in {Sessions, Excerpts, Claims, Reports}
    requires KeyOf(b, step) != raw && Absent(b, a.st.rows, StepTable(step), raw)
    ensures Absent(b, DoStep(b, step, a).st.rows, StepTable(step), raw)
  {
    OwnKeyStarts(b, step);
    hide Valid, Extends, DoStep, Keyed, RowOf, BodyOf, Absent, KeyOf;
    var table, rows, next := StepTable(step), a.st.rows, DoStep(b, step, a).st.rows;
    StepKeeps(b, step, a);
    StepLeavesKey(b, step, a);
    var id :| Keyed(b, next, table, KeyOf(b, step), id)
              && (next == rows || next == rows[Ref(table, id) := RowOf(b, step, BodyOf(b, step, rows, a.local).value)]);
    BundleKeysAreApart(b, KeyOf(b, step), raw);
    AnotherKeyAbsent(b, rows, next, table, KeyOf(b, step), raw, id);
  }

  lemma OwnKeyStarts(b: Bundle, step: Step)
    requires InBundle(b, step) && StepTable(step) in {Sessions, Excerpts, Claims, Reports}
    ensures b.queueId <= KeyOf(b, step)
  {
  }

  lemma AnotherKeyAbsent(b: Bundle, old_: Rows, new_: Rows, table: Table, own: string, raw: string, id: nat)
    requires Scoped(Some(own), b.ns) != Scoped(Some(raw), b.ns) && Keyed(b, new_, table, own, id)
    requires Extends(old_, new_) && forall r :: r in new_ && r.table == table && r != Ref(table, id) ==> r in old_
    requires Absent(b, old_, table, raw)
    ensures Absent(b, new_, table, raw)
  {
    forall x ensures !Keyed(b, new_, table, raw, x) {
      if x != id && Ref(table, x) in old_ {
        FixedDecides(old_[Ref(table, x)], new_[Ref(table, x)]);
        assert !Keyed(b, old_, table, raw, x);
      }
    }
  }

  lemma StepKeepsAbsent(b: Bundle, step: Step, a: Attempt, table: Table, raw: string)
    requires InBundle(b, step) && Valid(a.st) && "queue_" <= b.queueId && b.queueId <= raw
    requires !DoStep(b, step, a).failed && table in {Sessions, Excerpts, Claims, Reports}
    requires StepTable(step) == table ==> KeyOf(b, step) != raw
    requires Absent(b, a.st.rows, table, raw)
    ensures Absent(b, DoStep(b, step, a).st.rows, table, raw)
  {
    hide Valid, Extends, DoStep, Absent, Frozen, KeyOf;
    StepKeeps(b, step, a);
    if StepTable(step) == table {
      OtherKeyStaysAbsent(b, step, a, raw);
    } else {
      AbsentSurvives(b, a.st.rows, DoStep(b, step, a).st.rows, table, raw);
    }
  }

  lemma {:induction false} AbsentBefore(b: Bundle, k: nat, j: nat, st: State)
    requires j <= k && FirstOfItsKey(b, k) && Valid(st) && "queue_" <= b.queueId && !Exec(b, j, st).failed
    requires Absent(b, st.rows, StepTable(StepAt(b, k)), KeyOf(b, StepAt(b, k)))
    ensures Absent(b, Exec(b, j, st).st.rows, StepTable(StepAt(b, k)), KeyOf(b, StepAt(b, k)))
    decreases j
  {
    hide Valid, Extends, DoStep, Absent, KeyOf, StepAt, StepTable, Exec;
    StepIsInBundle(b, k);
    OwnKeyStarts(b, StepAt(b, k));
    if j == 0 {
      StartOfReplay(b, st);
    } else {
      OneExecStep(b, j - 1, st);
      AbsentBefore(b, k, j - 1, st);
      StepIsInBundle(b, j - 1);
      ExecKeeps(b, j - 1, st);
      StepKeepsAbsent(b, StepAt(b, j - 1), Exec(b, j - 1, st), StepTable(StepAt(b, k)), KeyOf(b, StepAt(b, k)));
    }
  }

  lemma StartOfReplay(b: Bundle, st: State)
    ensures Exec(b, 0, st) == Attempt(st, START, false)
  {
  }

  /** The row a step inserts is still there, as it was, when the transactions are over. */
  lemma {:induction false} RowIsLeft(b: Bundle, k: nat, st: State) returns (id: nat)
    requires FirstOfItsKey(b, k) && Valid(st) && "queue_" <= b.queueId && !Exec(b, Length(b), st).failed
    requires Absent(b, st.rows, StepTable(StepAt(b, k)), KeyOf(b, StepAt(b, k)))
    ensures InBundle(b, StepAt(b, k))
    ensures var rows, before := Exec(b, Length(b), st).st.rows, Exec(b, k, st);
            && Keyed(b, rows, StepTable(StepAt(b, k)), KeyOf(b, StepAt(b, k)), id)
            && BodyOf(b, StepAt(b, k), before.st.rows, before.local).Ok?
            && Ref(StepTable(StepAt(b, k)), id) in rows
            && rows[Ref(StepTable(StepAt(b, k)), id)]
               == RowOf(b, StepAt(b, k), BodyOf(b, StepAt(b, k), before.st.rows, before.local).value)
            && Exec(b, k + 1, st).local == Record(b, StepAt(b, k), before.local, id)
  {
    hide Valid, Extends, DoStep, Absent, Frozen, KeyOf, StepAt, Keyed, RowOf, BodyOf, Exec, Record;
    var step, n := StepAt(b, k), Length(b);
    StepIsInBundle(b, k);
    ExecGrows(b, k, n, st);
    ExecGrows(b, k + 1, n, st);
    ExecKeeps(b, k, st);
    AbsentBefore(b, k, k, st);
    OneExecStep(b, k, st);
    var before := Exec(b, k, st);
    StepLeavesKey(b, step, before);
    var next := Exec(b, k + 1, st).st.rows;
    var row := RowOf(b, step, BodyOf(b, step, before.st.rows, before.local).value);
    id :| Keyed(b, next, StepTable(step), KeyOf(b, step), id)
          && Exec(b, k + 1, st).local == Record(b, step, before.local, id)
          && ((Keyed(b, before.st.rows, StepTable(step), KeyOf(b, step), id) && Exec(b, k + 1, st).st == before.st)
              || next == before.st.rows[Ref(StepTable(step), id) := row]);
    AbsentIsNotKeyed(b, before.st.rows, StepTable(step), KeyOf(b, step), id);
    ExecOnlyAdds(b, k + 1, n, st);
    KeyedSurvives(b, next, Exec(b, n, st).st.rows, StepTable(step), KeyOf(b, step), id);
  }

  lemma AbsentIsNotKeyed(b: Bundle, rows: Rows, table: Table, raw: string, id: nat)
    requires Absent(b, rows, table, raw)
    ensures !Keyed(b, rows, table, raw, id)
  {
  }

  lemma OneExecStep(b: Bundle, k: nat, st: State)
    requires k < Length(b) && !Exec(b, k + 1, st).failed
    ensures !Exec(b, k, st).failed && Exec(b, k + 1, st) == DoStep(b, StepAt(b, k), Exec(b, k, st))
  {
  }

  /** The topic, question and session an attempt goes by stay the same once it has found them. */
  lemma {:induction false} LocalStays(b: Bundle, k: nat, n: nat, st: State)
    requires k <= n <= Length(b) && Valid(st) && !Exec(b, n, st).failed
    ensures k >= 1 ==> Exec(b, n, st).local.topic == Exec(b, k, st).local.topic
    ensures k >= 2 ==> Exec(b, n, st).local.question == Exec(b, k, st).local.question
    ensures k >= 3 ==> Exec(b, n, st).local.session == Exec(b, k, st).local.session
    decreases n
  {
    hide Valid, Extends, DoStep, StepAt, Exec;
    if k < n {
      OneExecStep(b, n - 1, st);
      LocalStays(b, k, n - 1, st);
      StepIsInBundle(b, n - 1);
      StepsInOrder(b, n - 1);
      StepRecords(b, StepAt(b, n - 1), Exec(b, n - 1, st));
    }
  }

  lemma StepRecords(b: Bundle, step: Step, a: Attempt)
    requires InBundle(b, step)
    ensures var next := DoStep(b, step, a).local;
            && (!step.TopicStep? ==> next.topic == a.local.topic)
            && (!step.QuestionStep? ==> next.question == a.local.question)
            && (!step.SessionStep? ==> next.session == a.local.session)
  {
  }

  /** Exactly this row is stored under the bundle's key. */
  ghost predicate HasRow(b: Bundle, rows: Rows, table: Table, raw: string, row: Row) {
    exists id :: Keyed(b, rows, table, raw, id) && rows[Ref(table, id)] == row
  }

  /** No key of the bundle's session, excerpts, claims and report is taken. */
  ghost predicate IsNew(b: Bundle, rows: Rows) {
    && Absent(b, rows, Sessions, b.queueId + ":session")
    && (forall i :: 0 <= i < |b.annotations| ==>
          Absent(b, rows, Excerpts, b.queueId + ":excerpt:" + b.annotations[i].tempId))
    && (forall f :: 0 <= f < |b.findings| ==> Absent(b, rows, Claims, b.queueId + ":claim:" + b.findings[f].tempId))
    && Absent(b, rows, Reports, b.queueId + ":report")
  }

  predicate FirstAnnotation(b: Bundle, i: nat) {
    i < |b.annotations| && forall j :: 0 <= j < i ==> b.annotations[j].tempId != b.annotations[i].tempId
  }

  /** The session, excerpts, claims and report of the bundle: its texts and visibilities, all under one question. */
  ghost predicate RowsAreTheBundles(b: Bundle, rows: Rows, question: nat, session: nat, topic: nat) {
    && HasRow(b, rows, Sessions, b.queueId + ":session",
              NewRow(b.ns, Some(b.queueId + ":session"), b.text, b.vis, None, Session(question, None)))
    && Keyed(b, rows, Sessions, b.queueId + ":session", session)
    && (forall i: nat :: FirstAnnotation(b, i) ==> ExcerptIsTheBundles(b, rows, question, session, topic, i))
    && (forall f: nat :: IsFirst(b, f) ==> ClaimIsTheBundles(b, rows, question, session, topic, f))
    && exists claims :: HasRow(b, rows, Reports, b.queueId + ":report",
                               NewRow(b.ns, Some(b.queueId + ":report"), b.report.text, b.report.vis, None,
                                      Report(question, Some(session), None, claims)))
  }

  ghost predicate ExcerptIsTheBundles(b: Bundle, rows: Rows, question: nat, session: nat, topic: nat, i: nat)
    requires i < |b.annotations|
  {
    var key := b.queueId + ":excerpt:" + b.annotations[i].tempId;
    exists source :: HasRow(b, rows, Excerpts, key,
                            NewRow(b.ns, Some(key), b.annotations[i].text, b.annotations[i].vis, None,
                                   Excerpt(question, source, Some(session), topic)))
  }

  ghost predicate ClaimIsTheBundles(b: Bundle, rows: Rows, question: nat, session: nat, topic: nat, f: nat)
    requires f < |b.findings|
  {
    var key := b.queueId + ":claim:" + b.findings[f].tempId;
    exists excerpts :: HasRow(b, rows, Claims, key,
                              NewRow(b.ns, Some(key), b.findings[f].text, b.findings[f].vis, None,
                                     Claim(question, Some(session), topic, excerpts)))
  }

  lemma RowOfIsNewRow(b: Bundle, step: Step, body: Body)
    requires InBundle(b, step)
    ensures RowOf(b, step, body) == NewRow(b.ns, Some(KeyOf(b, step)), TextOf(b, step), VisOf(b, step), None, body)
  {
  }

  lemma KeyTail(b: Bundle, head: string, x: string, y: string)
    ensures head + x == head + y <==> x == y
  {
    assert (head + x)[|head|..] == x && (head + y)[|head|..] == y;
  }

  lemma FirstSteps(b: Bundle)
    ensures StepAt(b, 2) == SessionStep && FirstOfItsKey(b, 2)
    ensures FirstOfItsKey(b, Length(b) - 1) && StepAt(b, Length(b) - 1) == ReportStep
  {
    forall i | 0 <= i < Length(b) - 1 ensures StepTable(StepAt(b, i)) != Reports { }
  }

  lemma FirstExcerptStep(b: Bundle, i: nat)
    requires FirstAnnotation(b, i)
    ensures 4 + 2 * i < Length(b) && StepAt(b, 4 + 2 * i) == ExcerptStep(i) && FirstOfItsKey(b, 4 + 2 * i)
  {
    var k := 4 + 2 * i;
    forall j | 0 <= j < k && StepTable(StepAt(b, j)) == Excerpts
      ensures KeyOf(b, StepAt(b, j)) != KeyOf(b, StepAt(b, k))
    {
      StepIsInBundle(b, j);
      var a := StepAt(b, j).a;
      assert j == 4 + 2 * a && a < i;
      KeyTail(b, b.queueId + ":excerpt:", b.annotations[a].tempId, b.annotations[i].tempId);
    }
  }

  lemma FirstClaimStep(b: Bundle, f: nat)
    requires IsFirst(b, f)
    ensures var k := 3 + 2 * |b.annotations| + f; k < Length(b) && StepAt(b, k) == ClaimStep(f) && FirstOfItsKey(b, k)
  {
    var k := 3 + 2 * |b.annotations| + f;
    forall j | 0 <= j < k && StepTable(StepAt(b, j)) == Claims
      ensures KeyOf(b, StepAt(b, j)) != KeyOf(b, StepAt(b, k))
    {
      StepIsInBundle(b, j);
      var g := StepAt(b, j).f;
      assert j == 3 + 2 * |b.annotations| + g && g < f;
      KeyTail(b, b.queueId + ":claim:", b.findings[g].tempId, b.findings[f].tempId);
    }
  }

  /** The topic the replay's question has is the one its excerpts and claims take. */
  lemma TopicAtStep(b: Bundle, k: nat, st: State)
    requires 2 <= k <= Length(b) && Valid(st) && !Exec(b, Length(b), st).failed && "queue_" <= b.queueId
    ensures var a, rows := Exec(b, k, st), Exec(b, Length(b), st).st.rows;
            var q := Ref(Questions, Exec(b, Length(b), st).local.question);
            && q in rows && rows[q].body.Question? && a.local.question == Exec(b, Length(b), st).local.question
            && TopicOrQuestions(a.st.rows, None, a.local.question) == Ok(rows[q].body.topic)
  {
    hide Valid, Extends, Exec, DoStep, TopicOrQuestions, Named, Known, KeysTaken, StepAt;
    var n := Length(b);
    ExecGrows(b, k, n, st);
    ExecSucceedsIff(b, k, st);
    ExecSucceedsIff(b, n, st);
    LocalStays(b, k, n, st);
    ExecOnlyAdds(b, k, n, st);
    var a, q := Exec(b, k, st), Exec(b, k, st).local.question;
    QuestionHasTopic(a.st, b, q);
    TopicRead(a.st.rows, q);
  }

  lemma TopicRead(rows: Rows, question: nat)
    requires TopicOrQuestions(rows, None, question).Ok?
    ensures var q := Ref(Questions, question);
            q in rows && rows[q].body.Question? && TopicOrQuestions(rows, None, question) == Ok(rows[q].body.topic)
  {
  }

  lemma RowFound(b: Bundle, rows: Rows, table: Table, raw: string, row: Row, id: nat)
    requires Keyed(b, rows, table, raw, id) && Ref(table, id) in rows && rows[Ref(table, id)] == row
    ensures HasRow(b, rows, table, raw, row)
  {
  }

  lemma NewKeys(b: Bundle, rows: Rows)
    requires IsNew(b, rows)
    ensures Absent(b, rows, StepTable(SessionStep), KeyOf(b, SessionStep))
    ensures Absent(b, rows, StepTable(ReportStep), KeyOf(b, ReportStep))
    ensures forall i :: 0 <= i < |b.annotations| ==> Absent(b, rows, Excerpts, KeyOf(b, ExcerptStep(i)))
    ensures forall f :: 0 <= f < |b.findings| ==> Absent(b, rows, Claims, KeyOf(b, ClaimStep(f)))
  {
    hide Absent;
  }

  lemma SessionIsLeft(b: Bundle, st: State)
    requires Valid(st) && IsNew(b, st.rows) && "queue_" <= b.queueId && !Exec(b, Length(b), st).failed
    ensures var a := Exec(b, Length(b), st);
            && Keyed(b, a.st.rows, Sessions, b.queueId + ":session", a.local.session)
            && HasRow(b, a.st.rows, Sessions, b.queueId + ":session",
                      NewRow(b.ns, Some(b.queueId + ":session"), b.text, b.vis, None, Session(a.local.question, None)))
  {
    hide Valid, Exec, Absent, Keyed, FirstOfItsKey, RowOf, NewRow, StepAt, IsNew;
    NewKeys(b, st.rows);
    FirstSteps(b);
    var id := RowIsLeft(b, 2, st);
    RowOfIsNewRow(b, SessionStep, Session(Exec(b, 2, st).local.question, None));
    LocalStays(b, 2, Length(b), st);
    LocalStays(b, 3, Length(b), st);
    RowFound(b, Exec(b, Length(b), st).st.rows, Sessions, b.queueId + ":session",
             RowOf(b, SessionStep, Session(Exec(b, 2, st).local.question, None)), id);
  }

  lemma ExcerptIsLeft(b: Bundle, st: State, i: nat, topic: nat)
    requires Valid(st) && IsNew(b, st.rows) && "queue_" <= b.queueId && !Exec(b, Length(b), st).failed
    requires FirstAnnotation(b, i)
    requires var a := Exec(b, Length(b), st); var q := Ref(Questions, a.local.question);
             q in a.st.rows && a.st.rows[q].body.Question? && topic == a.st.rows[q].body.topic
    ensures var a := Exec(b, Length(b), st);
            ExcerptIsTheBundles(b, a.st.rows, a.local.question, a.local.session, topic, i)
  {
    var k, key := 4 + 2 * i, b.queueId + ":excerpt:" + b.annotations[i].tempId;
    FirstExcerptStep(b, i);
    assert KeyOf(b, ExcerptStep(i)) == key;
    hide Valid, Exec, Absent, Keyed, FirstOfItsKey, RowOf, NewRow, StepAt, IsNew, TopicOrQuestions, KeyOf, HasRow;
    NewKeys(b, st.rows);
    var id := RowIsLeft(b, k, st);
    TopicAtStep(b, k, st);
    var before, a := Exec(b, k, st), Exec(b, Length(b), st);
    var body := Excerpt(a.local.question, before.local.source, Some(a.local.session), topic);
    LocalStays(b, k, Length(b), st);
    RowOfIsNewRow(b, ExcerptStep(i), body);
    RowFound(b, a.st.rows, Excerpts, key, RowOf(b, ExcerptStep(i), body), id);
  }

  lemma ClaimIsLeft(b: Bundle, st: State, f: nat, topic: nat)
    requires Valid(st) && IsNew(b, st.rows) && "queue_" <= b.queueId && !Exec(b, Length(b), st).failed
    requires IsFirst(b, f)
    requires var a := Exec(b, Length(b), st); var q := Ref(Questions, a.local.question);
             q in a.st.rows && a.st.rows[q].body.Question? && topic == a.st.rows[q].body.topic
    ensures var a := Exec(b, Length(b), st);
            ClaimIsTheBundles(b, a.st.rows, a.local.question, a.local.session, topic, f)
  {
    var k, key := 3 + 2 * |b.annotations| + f, b.queueId + ":claim:" + b.findings[f].tempId;
    FirstClaimStep(b, f);
    assert KeyOf(b, ClaimStep(f)) == key;
    hide Valid, Exec, Absent, Keyed, FirstOfItsKey, RowOf, NewRow, StepAt, IsNew, TopicOrQuestions, KeyOf, HasRow, Ids;
    NewKeys(b, st.rows);
    var id := RowIsLeft(b, k, st);
    TopicAtStep(b, k, st);
    var before, a := Exec(b, k, st), Exec(b, Length(b), st);
    var body := BodyOf(b, ClaimStep(f), before.st.rows, before.local).value;
    LocalStays(b, k, Length(b), st);
    RowOfIsNewRow(b, ClaimStep(f), body);
    RowFound(b, a.st.rows, Claims, key, RowOf(b, ClaimStep(f), body), id);
    assert body == Claim(a.local.question, Some(a.local.session), topic, body.excerpts);
  }

  lemma ReportIsLeft(b: Bundle, st: State)
    requires Valid(st) && IsNew(b, st.rows) && "queue_" <= b.queueId && !Exec(b, Length(b), st).failed
    ensures var a := Exec(b, Length(b), st);
            exists claims :: HasRow(b, a.st.rows, Reports, b.queueId + ":report",
                                    NewRow(b.ns, Some(b.queueId + ":report"), b.report.text, b.report.vis, None,
                                           Report(a.local.question, Some(a.local.session), None, claims)))
  {
    var k, key := Length(b) - 1, b.queueId + ":report";
    FirstSteps(b);
    assert KeyOf(b, ReportStep) == key;
    hide Valid, Exec, Absent, Keyed, FirstOfItsKey, RowOf, NewRow, StepAt, IsNew, KeyOf, HasRow, Ids;
    NewKeys(b, st.rows);
    var id := RowIsLeft(b, k, st);
    var before, a := Exec(b, k, st), Exec(b, Length(b), st);
    var body := BodyOf(b, ReportStep, before.st.rows, before.local).value;
    LocalStays(b, k, Length(b), st);
    RowOfIsNewRow(b, ReportStep, body);
    RowFound(b, a.st.rows, Reports, key, RowOf(b, ReportStep, body), id);
    assert body == Report(a.local.question, Some(a.local.session), None, body.claims);
  }

  /** Answering the question touches none of these rows. */
  lemma AnsweredKeepsRow(b: Bundle, rows: Rows, question: nat, table: Table, raw: string)
    requires table != Questions
    ensures forall id ::
              Keyed(b, rows, table, raw, id) ==> Keyed(b, SetStatus(rows, question, Answered), table, raw, id)
    ensures forall row :: HasRow(b, rows, table, raw, row) ==>
              HasRow(b, SetStatus(rows, question, Answered), table, raw, row)
  {
    var next := SetStatus(rows, question, Answered);
    assert forall id :: Ref(table, id) in rows ==>
      Ref(table, id) in next && next[Ref(table, id)] == rows[Ref(table, id)];
    hide SetStatus;
    forall row | HasRow(b, rows, table, raw, row) ensures HasRow(b, next, table, raw, row) {
      var id :| Keyed(b, rows, table, raw, id) && rows[Ref(table, id)] == row;
      assert Keyed(b, next, table, raw, id) && next[Ref(table, id)] == row;
    }
  }

  lemma AnsweredKeepsRows(b: Bundle, rows: Rows, question: nat, session: nat, topic: nat)
    requires RowsAreTheBundles(b, rows, question, session, topic)
    ensures RowsAreTheBundles(b, SetStatus(rows, question, Answered), question, session, topic)
  {
    hide SetStatus, HasRow, Keyed, NewRow;
    AnsweredKeepsRow(b, rows, question, Sessions, b.queueId + ":session");
    AnsweredKeepsRow(b, rows, question, Reports, b.queueId + ":report");
    forall i: nat | FirstAnnotation(b, i)
      ensures ExcerptIsTheBundles(b, SetStatus(rows, question, Answered), question, session, topic, i)
    {
      AnsweredKeepsRow(b, rows, question, Excerpts, b.queueId + ":excerpt:" + b.annotations[i].tempId);
      assert ExcerptIsTheBundles(b, rows, question, session, topic, i);
    }
    forall f: nat | IsFirst(b, f)
      ensures ClaimIsTheBundles(b, SetStatus(rows, question, Answered), question, session, topic, f)
    {
      AnsweredKeepsRow(b, rows, question, Claims, b.queueId + ":claim:" + b.findings[f].tempId);
      assert ClaimIsTheBundles(b, rows, question, session, topic, f);
    }
  }

  lemma RowsAreLeft(b: Bundle, st: State)
    requires Valid(st) && IsNew(b, st.rows) && "queue_" <= b.queueId && !Exec(b, Length(b), st).failed
    ensures var a := Exec(b, Length(b), st); var q := Ref(Questions, a.local.question);
            && q in a.st.rows && a.st.rows[q].body.Question? && a.st.rows[q].ns == b.ns
            && RowsAreTheBundles(b, a.st.rows, a.local.question, a.local.session, a.st.rows[q].body.topic)
  {
    hide Valid, Exec, IsNew, HasRow, Keyed, NewRow, ExcerptIsTheBundles, ClaimIsTheBundles, TopicOrQuestions;
    TopicAtStep(b, Length(b), st);
    QuestionIsHome(b, st);
    SessionIsLeft(b, st);
    ReportIsLeft(b, st);
    var a := Exec(b, Length(b), st);
    var topic := a.st.rows[Ref(Questions, a.local.question)].body.topic;
    forall i: nat | FirstAnnotation(b, i)
      ensures ExcerptIsTheBundles(b, a.st.rows, a.local.question, a.local.session, topic, i)
    {
      ExcerptIsLeft(b, st, i, topic);
    }
    forall f: nat | IsFirst(b, f)
      ensures ClaimIsTheBundles(b, a.st.rows, a.local.question, a.local.session, topic, f)
    {
      ClaimIsLeft(b, st, f, topic);
    }
  }

  lemma QuestionIsHome(b: Bundle, st: State)
    requires Valid(st) && "queue_" <= b.queueId && !Exec(b, Length(b), st).failed
    ensures var a := Exec(b, Length(b), st); StoredIn(a.st.rows, b.ns, Questions, a.local.question)
  {
    hide Valid, Exec, Named, Known, KeysTaken;
    ExecSucceedsIff(b, Length(b), st);
  }

  lemma AnsweredQuestion(rows: Rows, question: nat)
    requires Ref(Questions, question) in rows && rows[Ref(Questions, question)].body.Question?
    ensures var q, next := Ref(Questions, question), SetStatus(rows, question, Answered);
            q in next && next[q] == rows[q].(body := rows[q].body.(status := Answered))
  {
  }

  // ---------------------------------------------------------------- a question and a topic of its own

  /** Nothing in the namespace is the bundle's question already, nor the topic of its focus. */
  predicate AsksAnew(b: Bundle, rows: Rows) {
    && (forall r :: r in rows && r.table == Questions && rows[r].ns == b.ns && rows[r].body.Question? ==>
          rows[r].body.prompt != b.prompt && rows[r].key != Scoped(Some(b.queueId + ":question"), b.ns))
    && (forall r :: r in rows && r.table == Topics && rows[r].ns == b.ns && rows[r].body.Topic? ==>
          rows[r].body.slug != b.slug && rows[r].key != FocusRow(b.ns, b.text, b.slug, None).key)
  }

  lemma NewTopic(b: Bundle, st: State)
    requires Valid(st) && AsksAnew(b, st.rows)
    ensures var a := Exec(b, 1, st);
            && !a.failed && Ref(Topics, a.local.topic) !in st.rows
            && a.st.rows == st.rows[Ref(Topics, a.local.topic) := FocusRow(b.ns, b.text, b.slug, None)]
  {
    var start := Exec(b, 0, st);
    assert Exec(b, 1, st) == DoStep(b, TopicStep, start);
    StepTransacts(b, TopicStep, start, Topic(b.slug, None));
    var row := RowOf(b, TopicStep, Topic(b.slug, None));
    RowOfIsNewRow(b, TopicStep, Topic(b.slug, None));
    FocusKeyIsLiteral(b);
    TopicsAreTopics(st);
    hide Valid, NewRow, FocusRow, Exec, DoStep, KeyOf, Scoped, RowOf, Admit;
    assert !IsCarried(st.rows, row) && !HasTwin(st.rows, row);
  }

  lemma FocusKeyIsLiteral(b: Bundle)
    ensures FocusRow(b.ns, b.text, b.slug, None)
         == NewRow(b.ns, Some(KeyOf(b, TopicStep)), b.text, Private, None, Topic(b.slug, None))
  {
  }

  lemma QuestionsAreQuestions(st: State)
    requires Valid(st)
    ensures forall id :: Ref(Questions, id) in st.rows ==> st.rows[Ref(Questions, id)].body.Question?
  {
  }

  /** A transaction that finds nothing and is refused nothing inserts its row. */
  lemma Inserts(st: State, row: Row, o: Outcome)
    requires Transacts(st, row, o) && NamesStored(st.rows, row.ns, row.body) && LinksOnce(row.body)
    requires !IsCarried(st.rows, row) && !HasTwin(st.rows, row)
    ensures o.result.Ok? && Ref(TableFor(row.body), o.result.value) !in st.rows
    ensures o.st.rows == st.rows[Ref(TableFor(row.body), o.result.value) := row]
  {
    hide NamesStored, LinksOnce, IsCarried, HasTwin;
  }

  lemma NotAskedYet(b: Bundle, old_: Rows, rows: Rows, topic: nat, row: Row)
    requires AsksAnew(b, old_) && row.ns == b.ns && row.key == Scoped(Some(b.queueId + ":question"), b.ns)
    requires row.body == Question(topic, b.prompt, Open, None, None)
    requires forall r :: r in rows && r.table == Questions ==> r in old_ && old_[r] == rows[r] && rows[r].body.Question?
    ensures !IsCarried(rows, row) && !HasTwin(rows, row)
  {
    hide FocusRow, Scoped;
  }

  lemma SecondStep(b: Bundle, st: State)
    ensures KeyOf(b, QuestionStep) == b.queueId + ":question"
    ensures var one := Exec(b, 1, st);
            && (!one.failed ==> Exec(b, 2, st) == DoStep(b, QuestionStep, one))
            && BodyOf(b, QuestionStep, one.st.rows, one.local)
               == Ok(Question(one.local.topic, b.prompt, Open, None, None))
    ensures forall local, id :: Record(b, QuestionStep, local, id) == local.(question := id)
  {
    hide DoStep;
  }

  lemma NewQuestion(b: Bundle, st: State)
    requires Valid(st) && AsksAnew(b, st.rows)
    ensures var one, a := Exec(b, 1, st), Exec(b, 2, st);
            && !a.failed && a.local.topic == one.local.topic
            && a.st.rows == one.st.rows[Ref(Questions, a.local.question) :=
                 NewRow(b.ns, Some(b.queueId + ":question"), b.text, b.vis, None,
                        Question(a.local.topic, b.prompt, Open, None, None))]
  {
    hide Valid, Extends, NewRow, FocusRow, Exec, DoStep, KeyOf, Scoped, RowOf, Admit, AsksAnew, IsCarried, HasTwin,
         Transacts, BodyOf, Record, StoredIn;
    var one := Exec(b, 1, st);
    var body := Question(one.local.topic, b.prompt, Open, None, None);
    var row := RowOf(b, QuestionStep, body);
    SecondStep(b, st);
    NewTopic(b, st);
    ExecKeeps(b, 1, st);
    RowOfIsNewRow(b, QuestionStep, body);
    TopicIsHome(b);
    QuestionsAreQuestions(st);
    StoredUnder(one.st.rows, b.ns, one.local.topic);
    StepTransacts(b, QuestionStep, one, body);
    NotAskedYet(b, st.rows, one.st.rows, one.local.topic, row);
    StepInserts(b, QuestionStep, one, body);
  }

  lemma StoredUnder(rows: Rows, ns: Namespace, topic: nat)
    ensures Ref(Topics, topic) in rows && rows[Ref(Topics, topic)].ns == ns ==> StoredIn(rows, ns, Topics, topic)
  {
  }

  /** A step that finds nothing stores its row. */
  lemma StepInserts(b: Bundle, step: Step, a: Attempt, body: Body)
    requires InBundle(b, step) && Valid(a.st) && BodyOf(b, step, a.st.rows, a.local) == Ok(body) && !a.failed
    requires NamesStored(a.st.rows, b.ns, body) && LinksOnce(body)
    requires !IsCarried(a.st.rows, RowOf(b, step, body)) && !HasTwin(a.st.rows, RowOf(b, step, body))
    ensures !DoStep(b, step, a).failed
    ensures exists id :: && Ref(TableFor(body), id) !in a.st.rows
                         && DoStep(b, step, a).st.rows == a.st.rows[Ref(TableFor(body), id) := RowOf(b, step, body)]
                         && DoStep(b, step, a).local == Record(b, step, a.local, id)
  {
    hide Valid, NamesStored, LinksOnce, IsCarried, HasTwin, BodyOf, RowOf, KeyOf, Admit, DoStep, Transacts, Record;
    StepTransacts(b, step, a, body);
    Inserts(a.st, RowOf(b, step, body), Admit(a.st, RowOf(b, step, body), Some(KeyOf(b, step))));
  }

  lemma TopicIsHome(b: Bundle)
    ensures FocusRow(b.ns, b.text, b.slug, None).ns == b.ns
  {
  }

  /** The question asks the bundle's prompt, under a topic with the slug of its focus; both rows are the bundle's. */
  predicate QuestionIsTheBundles(b: Bundle, rows: Rows, question: nat) {
    var q := Ref(Questions, question);
    && q in rows && rows[q].body.Question?
    && var topic := rows[q].body.topic;
       && rows[q] == NewRow(b.ns, Some(b.queueId + ":question"), b.text, b.vis, None,
                            Question(topic, b.prompt, Answered, None, None))
       && Ref(Topics, topic) in rows && rows[Ref(Topics, topic)] == FocusRow(b.ns, b.text, b.slug, None)
  }

  lemma QuestionIsLeft(b: Bundle, st: State)
    requires Valid(st) && AsksAnew(b, st.rows) && !Exec(b, Length(b), st).failed
    ensures var a := Exec(b, Length(b), st);
            QuestionIsTheBundles(b, SetStatus(a.st.rows, a.local.question, Answered), a.local.question)
  {
    var n := Length(b);
    hide Valid, Exec, FocusRow, AsksAnew, Scoped;
    NewTopic(b, st);
    NewQuestion(b, st);
    ExecOnlyAdds(b, 1, n, st);
    ExecOnlyAdds(b, 2, n, st);
    LocalStays(b, 1, n, st);
    LocalStays(b, 2, n, st);
    AnsweredQuestion(Exec(b, n, st).st.rows, Exec(b, n, st).local.question);
    OthersAreKept(Exec(b, n, st).st.rows, Exec(b, n, st).local.question);
    hide SetStatus;
  }

  lemma OthersAreKept(rows: Rows, question: nat)
    ensures forall r :: r in rows && r.table != Questions ==>
              r in SetStatus(rows, question, Answered) && SetStatus(rows, question, Answered)[r] == rows[r]
  {
  }

  /**
   * Whatever crashed attempts came before, a completed replay of a bundle new to the store leaves the bundle's session,
   * excerpts, claims and report with the bundle's own texts and visibilities, all about one answered question of its
   * namespace, all made in the one session, and the excerpts and claims under that question's topic.
   */
  lemma ReplayLeavesTheBundle(b: Bundle, cuts: seq<nat>, st: State) returns (question: nat, session: nat)
    requires Valid(st) && IsNew(b, st.rows) && "queue_" <= b.queueId && Complete(b, st).result.Ok?
    ensures var rows, q := Complete(b, Attempts(b, cuts, st)).st.rows, Ref(Questions, question);
            && q in rows && rows[q].ns == b.ns && rows[q].body.Question? && rows[q].body.status == Answered
            && RowsAreTheBundles(b, rows, question, session, rows[q].body.topic)
            && (AsksAnew(b, st.rows) ==> QuestionIsTheBundles(b, rows, question))
  {
    CrashesLeaveNoTrace(b, cuts, st);
    var a := Exec(b, Length(b), st);
    question, session := a.local.question, a.local.session;
    RowsAreLeft(b, st);
    hide RowsAreTheBundles, Valid, Exec, AsksAnew, QuestionIsTheBundles;
    if AsksAnew(b, st.rows) {
      QuestionIsLeft(b, st);
    }
    AnsweredKeepsRows(b, a.st.rows, question, session, a.st.rows[Ref(Questions, question)].body.topic);
    AnsweredQuestion(a.st.rows, question);
    hide SetStatus;
  }

}
