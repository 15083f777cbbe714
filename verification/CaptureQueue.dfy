/** The capture queue of src/research_registry/capture_queue.py, with v1 bundles and a local registry as its backend. */
module CaptureQueues {
  import opened PyText
  import opened ScopedKeys
  import opened RegistryStore
  import opened RegistryLaws
  import opened RegistryServices
  import opened Replay
  import opened ReplayLaws
  import opened ReplayLinks

  datatype Envelope = Envelope(bundle: Bundle, backendUrl: string, retries: nat, lastError: Option<string>)

  datatype BackendStatus = BackendStatus(url: string, ns: Namespace)

  function RstripSlashes(s: string): string {
    if s != [] && s[|s| - 1] == '/' then RstripSlashes(s[..|s| - 1]) else s
  }

  /** A missing URL is the empty one. */
  predicate MatchesBackend(e: Envelope, status: BackendStatus) {
    && (e.backendUrl != "" && status.url != "" ==> RstripSlashes(e.backendUrl) == RstripSlashes(status.url))
    && e.bundle.ns == status.ns
  }

  function Retried(e: Envelope, message: string): Envelope {
    e.(retries := e.retries + 1, lastError := Some(message))
  }

  const FAILED := "replay failed"

  // ---------------------------------------------------------------- one bundle

  function FocusedPayload(b: Bundle): QuestionCreate {
    QuestionCreate(b.ns, Some(b.queueId + ":question"), b.text, b.vis, Focus(b.slug), b.prompt, Open, None, None)
  }

  /** Creating the question is the first two transactions of a replay. */
  lemma {:induction false} QuestionIsTwoSteps(b: Bundle, st: State)
    ensures var o, a := CreateQuestion(st, FocusedPayload(b), None), Exec(b, 2, st);
            o.st == a.st && o.result.Err? == a.failed && (o.result.Ok? ==> o.result.value == a.local.question)
    ensures !Exec(b, 2, st).failed ==>
        var l := Exec(b, 2, st).local; l == START.(topic := l.topic, question := l.question)
  {
    hide Admit;
    var start := Exec(b, 0, st);
    StepsAreServiceCalls(b, TopicStep, start);
    var one := Exec(b, 1, st);
    assert one == DoStep(b, TopicStep, start);
    if !one.failed {
      StepsAreServiceCalls(b, QuestionStep, one);
      assert Exec(b, 2, st) == DoStep(b, QuestionStep, one);
    }
  }

  lemma FailedStays(b: Bundle, k: nat, n: nat, st: State)
    requires k <= n <= Length(b) && Exec(b, k, st).failed
    ensures Exec(b, n, st) == Exec(b, k, st)
  {
  }

  lemma {:induction false} OneStepOn(b: Bundle, k: nat, st: State)
    requires k < Length(b) && !Exec(b, k, st).failed
    ensures Exec(b, k + 1, st) == DoStep(b, StepAt(b, k), Exec(b, k, st))
  {
    hide DoStep;
  }

  lemma {:induction false} FailedIsTheResult(b: Bundle, k: nat, st: State)
    requires k <= Length(b) && Exec(b, k, st).failed
    ensures Complete(b, st) == Outcome(Exec(b, k, st).st, Err(FAILED))
  {
    FailedStays(b, k, Length(b), st);
  }

  /** The ids of temporary names, or nothing if one is unknown: the dictionary lookups of the replay. */
  method Lookup(known: map<string, nat>, temps: seq<string>) returns (ids: Result<seq<nat>>)
    ensures ids == Ids(known, temps)
  {
    var found := [];
    for i := 0 to |temps|
      invariant forall p :: 0 <= p < i ==> temps[p] in known
      invariant |found| == i && forall p :: 0 <= p < i ==> found[p] == known[temps[p]]
    {
      if temps[i] !in known {
        return Err("KeyError");
      }
      found := found + [known[temps[i]]];
    }
    assert found == seq(|temps|, p requires 0 <= p < |temps| => known[temps[p]]);
    ids := Ok(found);
  }

  /** The replay has done `k` transactions; its dictionaries and variables are in `local`. */
  ghost predicate AtStep(b: Bundle, k: nat, start: State, st: State, local: Local)
    requires k <= Length(b)
  {
    var a := Exec(b, k, start);
    !a.failed && a.st == st && a.local.(topic := 0, source := 0) == local.(topic := 0, source := 0)
  }

  ghost predicate Stopped(b: Bundle, start: State, st: State) {
    Complete(b, start) == Outcome(st, Err(FAILED))
  }

  method EnsureQuestion(backend: RegistryService, b: Bundle) returns (local: Option<Local>)
    requires backend.Consistent()
    modifies backend
    ensures var start, st := old(backend.Tables()), backend.Tables();
            if local.Some? then AtStep(b, 2, start, st, local.value) else Stopped(b, start, st)
    ensures backend.Consistent()
  {
    hide DoStep, Exec, CreateQuestion, Complete;
    ghost var start := backend.Tables();
    var question := backend.AddQuestion(FocusedPayload(b), None);
    QuestionIsTwoSteps(b, start);
    if question.Err? {
      FailedIsTheResult(b, 2, start);
      return None;
    }
    local := Some(START.(question := question.value));
  }

  method EnsureSession(backend: RegistryService, b: Bundle, local: Local, ghost start: State)
      returns (next: Option<Local>)
    requires backend.Consistent() && AtStep(b, 2, start, backend.Tables(), local)
    modifies backend
    ensures if next.Some? then AtStep(b, 3, start, backend.Tables(), next.value)
        else Stopped(b, start, backend.Tables())
    ensures backend.Consistent()
  {
    hide DoStep, Exec, StepAt, CreateSession, Complete;
    StepKinds(b);
    StepsAreServiceCalls(b, SessionStep, Exec(b, 2, start));
    OneStepOn(b, 2, start);
    var session := backend.AddSession(SessionPayload(b, local), None);
    if session.Err? {
      FailedIsTheResult(b, 3, start);
      return None;
    }
    next := Some(local.(session := session.value));
  }

  /** One annotation: its source, and the excerpt from it. */
  method EnsureExcerpt(backend: RegistryService, b: Bundle, i: nat, local: Local, ghost start: State)
    returns (next: Option<Local>)
    requires i < |b.annotations| && backend.Consistent() && AtStep(b, 3 + 2 * i, start, backend.Tables(), local)
    modifies backend
    ensures if next.Some? then AtStep(b, 5 + 2 * i, start, backend.Tables(), next.value)
            else Stopped(b, start, backend.Tables())
    ensures backend.Consistent()
  {
    hide DoStep, Exec, StepAt, CreateSource, CreateExcerpt, Complete;
    StepKinds(b);
    StepsAreServiceCalls(b, SourceStep(i), Exec(b, 3 + 2 * i, start));
    OneStepOn(b, 3 + 2 * i, start);
    var source := backend.AddSource(SourcePayload(b, i), None);
    if source.Err? {
      FailedIsTheResult(b, 4 + 2 * i, start);
      return None;
    }
    var known := local.(source := source.value);
    StepsAreServiceCalls(b, ExcerptStep(i), Exec(b, 4 + 2 * i, start));
    OneStepOn(b, 4 + 2 * i, start);
    var excerpt := backend.AddExcerpt(ExcerptPayload(b, i, known), None);
    if excerpt.Err? {
      FailedIsTheResult(b, 5 + 2 * i, start);
      return None;
    }
    next := Some(known.(excerpts := known.excerpts[b.annotations[i].tempId := excerpt.value]));
  }

  method EnsureClaim(backend: RegistryService, b: Bundle, j: nat, local: Local, ghost start: State)
    returns (next: Option<Local>)
    requires j < |b.findings| && backend.Consistent()
    requires AtStep(b, 3 + 2 * |b.annotations| + j, start, backend.Tables(), local)
    modifies backend
    ensures if next.Some? then AtStep(b, 4 + 2 * |b.annotations| + j, start, backend.Tables(), next.value)
            else Stopped(b, start, backend.Tables())
    ensures backend.Consistent()
  {
    hide DoStep, Exec, StepAt, CreateClaim, Complete, Ids;
    ghost var k := 3 + 2 * |b.annotations| + j;
    StepKinds(b);
    StepsAreServiceCalls(b, ClaimStep(j), Exec(b, k, start));
    OneStepOn(b, k, start);
    var excerptIds := Lookup(local.excerpts, b.findings[j].annotations);
    if excerptIds.Err? {
      FailedIsTheResult(b, k + 1, start);
      return None;
    }
    var claim := backend.AddClaim(ClaimPayload(b, j, local, excerptIds.value), None);
    if claim.Err? {
      FailedIsTheResult(b, k + 1, start);
      return None;
    }
    next := Some(local.(claims := local.claims[b.findings[j].tempId := claim.value]));
  }

  /** The report, and then the answer to the question. */
  method EnsureReport(backend: RegistryService, b: Bundle, local: Local, ghost start: State)
      returns (result: Result<nat>)
    requires backend.Consistent() && AtStep(b, Length(b) - 1, start, backend.Tables(), local)
    modifies backend
    ensures Outcome(backend.Tables(), result) == Complete(b, start)
    ensures backend.Consistent()
  {
    hide DoStep, Exec, StepAt, InsertReport, Complete, Ids, Valid;
    ghost var n, a := Length(b), Exec(b, Length(b) - 1, start);
    StepKinds(b);
    StepsAreServiceCalls(b, ReportStep, a);
    OneStepOn(b, n - 1, start);
    var claimIds := Lookup(local.claims, b.report.findings);
    if claimIds.Err? {
      FailedIsTheResult(b, n, start);
      return Err(FAILED);
    }
    var report := backend.AddReport(ReportPayload(b, local, claimIds.value), None);
    ReportThenAnswer(b, start, ReportPayload(b, local, claimIds.value), a.st);
    if report.Err? {
      FailedIsTheResult(b, n, start);
      return Err(FAILED);
    }
    backend.SetQuestionStatus(local.question, Answered);
    result := Ok(report.value);
  }

  /** The whole replay of one bundle does to the registry what its transactions do, one after the other. */
  method ReplayBundle(backend: RegistryService, b: Bundle) returns (result: Result<nat>)
    requires backend.Consistent()
    modifies backend
    ensures Outcome(backend.Tables(), result) == Complete(b, old(backend.Tables()))
    ensures backend.Consistent()
  {
    hide AtStep, Complete, Valid;
    ghost var start := backend.Tables();
    var local := EnsureQuestion(backend, b);
    if local == None {
      return Err(FAILED);
    }
    local := EnsureSession(backend, b, local.value, start);
    if local == None {
      return Err(FAILED);
    }
    for i := 0 to |b.annotations|
      invariant local.Some? && backend.Consistent() && AtStep(b, 3 + 2 * i, start, backend.Tables(), local.value)
    {
      local := EnsureExcerpt(backend, b, i, local.value, start);
      if local == None {
        return Err(FAILED);
      }
    }
    for j := 0 to |b.findings|
      invariant local.Some? && backend.Consistent()
      invariant AtStep(b, 3 + 2 * |b.annotations| + j, start, backend.Tables(), local.value)
    {
      local := EnsureClaim(backend, b, j, local.value, start);
      if local == None {
        return Err(FAILED);
      }
    }
    result := EnsureReport(backend, b, local.value, start);
  }

  lemma StepKinds(b: Bundle)
    ensures StepAt(b, 2) == SessionStep && StepAt(b, Length(b) - 1) == ReportStep
    ensures forall i :: 0 <= i < |b.annotations| ==>
              StepAt(b, 3 + 2 * i) == SourceStep(i) && StepAt(b, 4 + 2 * i) == ExcerptStep(i)
    ensures forall j :: 0 <= j < |b.findings| ==> StepAt(b, 3 + 2 * |b.annotations| + j) == ClaimStep(j)
  {
  }

  /** Answering twice is answering once, so it does not matter whether storing the report answered the question. */
  lemma {:induction false} ReportThenAnswer(b: Bundle, st: State, p: ReportCreate, before: State)
    requires Valid(before)
    requires var a := Exec(b, Length(b), st); var o := InsertReport(before, p, None);
             a.st == o.st && a.failed == o.result.Err? && p.question == a.local.question
             && (o.result.Ok? ==> o.result.value == a.local.report)
    ensures var a, o := Exec(b, Length(b), st), CreateReport(before, p, None);
            && o.result.Err? == a.failed
            && (a.failed ==> o.st == a.st)
            && (!a.failed ==>
                  Complete(b, st) == Outcome(o.st.(rows := SetStatus(o.st.rows, a.local.question, Answered)), o.result))
  {
    hide Exec, Admit, Valid;
    var a, o := Exec(b, Length(b), st), InsertReport(before, p, None);
    StatusTwice(o.st.rows, p.question);
    if a.failed {
      RefusedReportWritesNothing(before, p);
    }
  }

  lemma StatusTwice(rows: Rows, question: nat)
    ensures var once := SetStatus(rows, question, Answered); SetStatus(once, question, Answered) == once
  {
  }

  lemma RefusedReportWritesNothing(st: State, p: ReportCreate)
    requires InsertReport(st, p, None).result.Err?
    ensures InsertReport(st, p, None).st == st
  {
  }

  // ---------------------------------------------------------------- the queue file

  datatype FlushResult = FlushResult(flushed: seq<string>, failed: seq<string>, reports: seq<nat>)

  datatype Flushed = Flushed(remaining: seq<Envelope>, result: FlushResult, st: State)

  /** One envelope of a flush: kept as it is, replayed and dropped, or kept with its failure counted. */
  ghost function FlushOne(f: Flushed, e: Envelope, status: BackendStatus): Flushed {
    if !MatchesBackend(e, status) then f.(remaining := f.remaining + [e])
    else
      var o := Complete(e.bundle, f.st);
      if o.result.Ok? then
        Flushed(f.remaining,
                f.result.(flushed := f.result.flushed + [e.bundle.queueId],
                          reports := f.result.reports + [o.result.value]),
                o.st)
      else
        Flushed(f.remaining + [Retried(e, o.result.message)],
                f.result.(failed := f.result.failed + [e.bundle.queueId]),
                o.st)
  }

  ghost function FlushAll(pending: seq<Envelope>, status: BackendStatus, st: State): Flushed {
    if pending == [] then Flushed([], FlushResult([], [], []), st)
    else FlushOne(FlushAll(pending[..|pending| - 1], status, st), pending[|pending| - 1], status)
  }

  class CaptureQueue {
    var file: seq<Envelope>

    constructor ()
      ensures file == []
    {
      file := [];
    }

    method Enqueue(e: Envelope)
      modifies this
      ensures file == old(file) + [e]
    {
      file := file + [e];
    }

    method Flush(backend: RegistryService, status: BackendStatus) returns (result: FlushResult)
      requires backend.Consistent()
      modifies this, backend
      ensures Flushed(file, result, backend.Tables()) == FlushAll(old(file), status, old(backend.Tables()))
      ensures backend.Consistent()
    {
      hide Complete, Valid;
      var pending, remaining := file, [];
      result := FlushResult([], [], []);
      for i := 0 to |pending|
        invariant Flushed(remaining, result, backend.Tables()) == FlushAll(pending[..i], status, old(backend.Tables()))
        invariant backend.Consistent()
      {
        var e := pending[i];
        assert pending[..i + 1][..i] == pending[..i];
        if !MatchesBackend(e, status) {
          remaining := remaining + [e];
          continue;
        }
        var replayed := ReplayBundle(backend, e.bundle);
        if replayed.Ok? {
          result := result.(flushed := result.flushed + [e.bundle.queueId],
                            reports := result.reports + [replayed.value]);
        } else {
          remaining := remaining + [Retried(e, replayed.message)];
          result := result.(failed := result.failed + [e.bundle.queueId]);
        }
      }
      assert pending[..|pending|] == pending;
      file := remaining;
    }
  }

  // ---------------------------------------------------------------- what a flush promises

  function Bundles(file: seq<Envelope>): multiset<Bundle> {
    if file == [] then multiset{} else multiset{file[0].bundle} + Bundles(file[1..])
  }

  lemma {:induction false} BundlesAppend(a: seq<Envelope>, b: seq<Envelope>)
    ensures Bundles(a + b) == Bundles(a) + Bundles(b)
  {
    if a == [] {
      assert a + b == b;
    } else {
      assert (a + b)[1..] == a[1..] + b;
      BundlesAppend(a[1..], b);
    }
  }

  /** The bundles a flush replays completely. */
  ghost function Replayed(pending: seq<Envelope>, status: BackendStatus, st: State): seq<Bundle> {
    if pending == [] then []
    else
      var front, e := pending[..|pending| - 1], pending[|pending| - 1];
      Replayed(front, status, st)
      + if IsReplayed(FlushAll(front, status, st), e, status) then [e.bundle] else []
  }

  ghost predicate IsReplayed(f: Flushed, e: Envelope, status: BackendStatus) {
    MatchesBackend(e, status) && Complete(e.bundle, f.st).result.Ok?
  }

  lemma FlushOneConserves(f: Flushed, e: Envelope, status: BackendStatus)
    ensures Bundles(f.remaining) + multiset{e.bundle}
         == Bundles(FlushOne(f, e, status).remaining) + multiset(if IsReplayed(f, e, status) then [e.bundle] else [])
  {
    hide Complete, MatchesBackend;
    var kept := FlushOne(f, e, status).remaining;
    BundlesAppend(f.remaining, [e]);
    OneBundle(e);
    if !IsReplayed(f, e, status) {
      var last := kept[|kept| - 1];
      assert kept == f.remaining + [last] && last.bundle == e.bundle;
      BundlesAppend(f.remaining, [last]);
      OneBundle(last);
    }
  }

  /** Conservation: every bundle that was pending is still in the file, or was replayed completely; none is invented. */
  lemma {:induction false} FlushConserves(pending: seq<Envelope>, status: BackendStatus, st: State)
    ensures Bundles(pending) == Bundles(FlushAll(pending, status, st).remaining)
        + multiset(Replayed(pending, status, st))
  {
    hide FlushOne, IsReplayed, Bundles;
    if pending == [] {
      NoBundles();
    } else {
      var front, e := pending[..|pending| - 1], pending[|pending| - 1];
      var before := FlushAll(front, status, st);
      var now := if IsReplayed(before, e, status) then [e.bundle] else [];
      FlushConserves(front, status, st);
      FlushOneConserves(before, e, status);
      assert pending == front + [e];
      BundlesAppend(front, [e]);
      OneBundle(e);
      Regroup(Bundles(front), Bundles(before.remaining), Replayed(front, status, st), multiset{e.bundle},
              Bundles(FlushOne(before, e, status).remaining), now);
    }
  }

  lemma NoBundles()
    ensures Bundles([]) == multiset{}
  {
  }

  lemma Regroup(all: multiset<Bundle>, kept: multiset<Bundle>, done: seq<Bundle>, one: multiset<Bundle>,
                keptNow: multiset<Bundle>, doneNow: seq<Bundle>)
    requires all == kept + multiset(done) && kept + one == keptNow + multiset(doneNow)
    ensures all + one == keptNow + multiset(done + doneNow)
  {
    var before, after := kept + one, keptNow + multiset(doneNow);
    forall x ensures (all + one)[x] == (keptNow + multiset(done + doneNow))[x] {
      assert before[x] == after[x] && multiset(done + doneNow) == multiset(done) + multiset(doneNow);
    }
  }

  /** The ids a flush reports as flushed are, in order, those of the bundles it replayed completely. */
  lemma {:induction false} FlushReportsTheReplayed(pending: seq<Envelope>, status: BackendStatus, st: State)
    ensures var f, replayed := FlushAll(pending, status, st), Replayed(pending, status, st);
            && |f.result.flushed| == |f.result.reports| == |replayed|
            && forall i :: 0 <= i < |replayed| ==> f.result.flushed[i] == replayed[i].queueId
  {
    hide Complete, MatchesBackend;
    if pending != [] {
      FlushReportsTheReplayed(pending[..|pending| - 1], status, st);
    }
  }

  lemma OneBundle(e: Envelope)
    ensures Bundles([e]) == multiset{e.bundle}
  {
  }

  function Foreign(file: seq<Envelope>, status: BackendStatus): seq<Envelope> {
    if file == [] then []
    else
      var k := |file| - 1;
      Foreign(file[..k], status) + if MatchesBackend(file[k], status) then [] else [file[k]]
  }

  lemma ForeignAppends(file: seq<Envelope>, e: Envelope, status: BackendStatus)
    ensures Foreign(file + [e], status) == Foreign(file, status) + if MatchesBackend(e, status) then [] else [e]
  {
    hide MatchesBackend;
    assert (file + [e])[..|file|] == file;
  }

  lemma FlushOneForeign(f: Flushed, e: Envelope, status: BackendStatus)
    ensures Foreign(FlushOne(f, e, status).remaining, status)
         == Foreign(f.remaining, status) + if MatchesBackend(e, status) then [] else [e]
  {
    hide Complete, Foreign, MatchesBackend;
    ForeignAppends(f.remaining, e, status);
    var result := Complete(e.bundle, f.st).result;
    if MatchesBackend(e, status) && result.Err? {
      RetriedMatches(e, status);
      ForeignAppends(f.remaining, Retried(e, result.message), status);
    }
  }

  /**
   * Envelopes of another backend or namespace pass through a flush untouched and in their order, whatever the others
   * do.
   */
  lemma {:induction false} ForeignEnvelopesAreKept(pending: seq<Envelope>, status: BackendStatus, st: State)
    ensures Foreign(FlushAll(pending, status, st).remaining, status) == Foreign(pending, status)
  {
    hide FlushOne, MatchesBackend;
    if pending != [] {
      var front := pending[..|pending| - 1];
      ForeignEnvelopesAreKept(front, status, st);
      FlushOneForeign(FlushAll(front, status, st), pending[|pending| - 1], status);
    }
  }

  lemma RetriedMatches(e: Envelope, status: BackendStatus)
    ensures forall message :: MatchesBackend(Retried(e, message), status) <==> MatchesBackend(e, status)
  {
  }

  // ---------------------------------------------------------------- the reports of a flush

  /** A replay keeps the store valid and only adds to it; one that succeeds returns the row with the report's key. */
  lemma CompleteKeeps(b: Bundle, st: State)
    requires Valid(st)
    ensures var o := Complete(b, st); Valid(o.st) && Extends(st.rows, o.st.rows)
    ensures var o := Complete(b, st); o.result.Ok? ==> Keyed(b, o.st.rows, Reports, ReportKey(b), o.result.value)
  {
    hide Valid, Extends, Keyed, DoStep, Exec, SetStatus;
    var n := Length(b);
    var a := Exec(b, n, st);
    ExecKeeps(b, n, st);
    if !a.failed {
      ReportIsKeyed(b, st);
      StatusKeeps(a.st, a.local.question, Answered);
      var answered := SetStatus(a.st.rows, a.local.question, Answered);
      ExtendsTransitive(st.rows, a.st.rows, answered);
      KeyedSurvives(b, a.st.rows, answered, Reports, ReportKey(b), a.local.report);
    }
  }

  lemma ReportIsKeyed(b: Bundle, st: State)
    requires Valid(st) && !Exec(b, Length(b), st).failed
    ensures var a := Exec(b, Length(b), st); Keyed(b, a.st.rows, Reports, ReportKey(b), a.local.report)
  {
    hide Valid, Keyed, DoStep, KeyOf, RowOf, BodyOf, Record, StepAt, ReportKey;
    var n := Length(b);
    var before := Exec(b, n - 1, st);
    LastStepReports(b, before.local);
    ExecKeeps(b, n - 1, st);
    StepLeavesKey(b, ReportStep, before);
  }

  lemma LastStepReports(b: Bundle, local: Local)
    ensures StepAt(b, Length(b) - 1) == ReportStep && KeyOf(b, ReportStep) == ReportKey(b)
    ensures forall id :: Record(b, ReportStep, local, id).report == id
  {
  }

  /** Each reported id is the row that carries the report key of the bundle replayed for it, when the flush is over. */
  lemma {:induction false} FlushReportsAreStored(pending: seq<Envelope>, status: BackendStatus, st: State)
    requires Valid(st)
    ensures var f, replayed := FlushAll(pending, status, st), Replayed(pending, status, st);
            && Valid(f.st) && Extends(st.rows, f.st.rows)
            && |f.result.reports| == |replayed|
            && forall i :: 0 <= i < |replayed| ==>
                 Keyed(replayed[i], f.st.rows, Reports, ReportKey(replayed[i]), f.result.reports[i])
  {
    hide Complete, MatchesBackend, Valid, Extends, Keyed, ReportKey;
    if pending == [] {
      EverythingExtendsItself(st.rows);
    } else {
      var front, e := pending[..|pending| - 1], pending[|pending| - 1];
      FlushReportsAreStored(front, status, st);
      var before, after := FlushAll(front, status, st), FlushAll(pending, status, st);
      if MatchesBackend(e, status) {
        CompleteKeeps(e.bundle, before.st);
        ExtendsTransitive(st.rows, before.st.rows, after.st.rows);
        var replayed := Replayed(front, status, st);
        forall i | 0 <= i < |replayed|
          ensures Keyed(replayed[i], after.st.rows, Reports, ReportKey(replayed[i]), before.result.reports[i])
        {
          KeyedSurvives(replayed[i], before.st.rows, after.st.rows, Reports, ReportKey(replayed[i]),
              before.result.reports[i]);
        }
      }
    }
  }
}
