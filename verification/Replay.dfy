/**
 * Replay of a queued capture bundle into the registry (src/research_registry/capture_queue.py): a sequence of
 * check-then-insert transactions, any prefix of which may be all that happened before a crash.
 */
module Replay {
  import opened PyText
  import opened ScopedKeys
  import opened RegistryStore

  /** `source.key` and `source.ns` are overwritten by the replay. */
  datatype Annotation = Annotation(tempId: string, source: SourceCreate, text: string, vis: Visibility)

  datatype Finding = Finding(tempId: string, annotations: seq<string>, text: string, vis: Visibility)

  datatype QueuedReport = QueuedReport(findings: seq<string>, text: string, vis: Visibility)

  /** `prompt` is the normalized prompt of the question and `slug` the slug of its focus. */
  datatype Bundle = Bundle(queueId: string, ns: Namespace, prompt: string, slug: string, text: string, vis: Visibility,
                           annotations: seq<Annotation>, findings: seq<Finding>, report: QueuedReport)

  /** The transactions of one replay, in order. */
  datatype Step =
    | TopicStep
    | QuestionStep
    | SessionStep
    | SourceStep(a: nat)
    | ExcerptStep(a: nat)
    | ClaimStep(f: nat)
    | ReportStep

  /** How many transactions store records; answering the question comes after them. */
  function Length(b: Bundle): nat {
    3 + 2 * |b.annotations| + |b.findings| + 1
  }

  function StepAt(b: Bundle, i: nat): (step: Step)
    requires i < Length(b)
    ensures (step.SourceStep? || step.ExcerptStep?) ==> step.a < |b.annotations|
    ensures step.ClaimStep? ==> step.f < |b.findings|
  {
    var claims := 3 + 2 * |b.annotations|;
    if i == 0 then TopicStep
    else if i == 1 then QuestionStep
    else if i == 2 then SessionStep
    else if i < claims then if i % 2 == 1 then SourceStep((i - 3) / 2) else ExcerptStep((i - 4) / 2)
    else if i < claims + |b.findings| then ClaimStep(i - claims)
    else ReportStep
  }

  function SourceKey(ns: Namespace, locator: string): string {
    "source:" + KindName(ns.kind) + ":" + ns.id + ":" + locator
  }

  /** The dedupe key of each transaction; none is empty. */
  function KeyOf(b: Bundle, step: Step): (key: string)
    requires (step.SourceStep? || step.ExcerptStep?) ==> step.a < |b.annotations|
    requires step.ClaimStep? ==> step.f < |b.findings|
    ensures key != ""
  {
    match step
    case TopicStep => FocusKey(b.ns, b.slug)
    case QuestionStep => b.queueId + ":question"
    case SessionStep => b.queueId + ":session"
    case SourceStep(a) => SourceKey(b.ns, b.annotations[a].source.locator)
    case ExcerptStep(a) => b.queueId + ":excerpt:" + b.annotations[a].tempId
    case ClaimStep(f) => b.queueId + ":claim:" + b.findings[f].tempId
    case ReportStep => b.queueId + ":report"
  }

  /** What an attempt holds in memory; a crash loses it. */
  datatype Local = Local(topic: nat, question: nat, session: nat, source: nat,
                         excerpts: map<string, nat>, claims: map<string, nat>, report: nat)

  const START := Local(0, 0, 0, 0, map[], map[], 0)

  function Ids(known: map<string, nat>, temps: seq<string>): Result<seq<nat>> {
    if forall i :: 0 <= i < |temps| ==> temps[i] in known then
      Ok(seq(|temps|, i requires 0 <= i < |temps| => known[temps[i]]))
    else Err("KeyError")
  }

  function VisOf(b: Bundle, step: Step): Visibility
    requires (step.SourceStep? || step.ExcerptStep?) ==> step.a < |b.annotations|
    requires step.ClaimStep? ==> step.f < |b.findings|
  {
    match step
    case TopicStep => Private
    case SourceStep(a) => b.annotations[a].source.vis
    case ExcerptStep(a) => b.annotations[a].vis
    case ClaimStep(f) => b.findings[f].vis
    case ReportStep => b.report.vis
    case _ => b.vis
  }

  function TextOf(b: Bundle, step: Step): string
    requires (step.SourceStep? || step.ExcerptStep?) ==> step.a < |b.annotations|
    requires step.ClaimStep? ==> step.f < |b.findings|
  {
    match step
    case SourceStep(a) => b.annotations[a].source.text
    case ExcerptStep(a) => b.annotations[a].text
    case ClaimStep(f) => b.findings[f].text
    case ReportStep => b.report.text
    case _ => b.text
  }

  /** The columns a transaction wants to store, from what the attempt has learned so far. */
  function BodyOf(b: Bundle, step: Step, rows: Rows, local: Local): Result<Body>
    requires (step.SourceStep? || step.ExcerptStep?) ==> step.a < |b.annotations|
    requires step.ClaimStep? ==> step.f < |b.findings|
  {
    match step
    case TopicStep => Ok(Topic(b.slug, None))
    case QuestionStep => Ok(Question(local.topic, b.prompt, Open, None, None))
    case SessionStep => Ok(Session(local.question, None))
    case SourceStep(a) =>
      var p := b.annotations[a].source;
      Ok(Source(p.locator, if p.hash.Some? then p.hash.value else "", p.snapshotRequired, p.snapshotPresent))
    case ExcerptStep(a) =>
      var topic := TopicOrQuestions(rows, None, local.question);
      if topic.Err? then Err(topic.message)
          else Ok(Excerpt(local.question, local.source, Some(local.session), topic.value))
    case ClaimStep(f) =>
      var excerpts := Ids(local.excerpts, b.findings[f].annotations);
      var topic := TopicOrQuestions(rows, None, local.question);
      if excerpts.Err? then Err(excerpts.message)
      else if topic.Err? then Err(topic.message)
      else Ok(Claim(local.question, Some(local.session), topic.value, excerpts.value))
    case ReportStep =>
      var claims := Ids(local.claims, b.report.findings);
      if claims.Err? then Err(claims.message) else Ok(Report(local.question, Some(local.session), None, claims.value))
  }

  function Record(b: Bundle, step: Step, local: Local, id: nat): Local
    requires (step.SourceStep? || step.ExcerptStep?) ==> step.a < |b.annotations|
    requires step.ClaimStep? ==> step.f < |b.findings|
  {
    match step
    case TopicStep => local.(topic := id)
    case QuestionStep => local.(question := id)
    case SessionStep => local.(session := id)
    case SourceStep(_) => local.(source := id)
    case ExcerptStep(a) => local.(excerpts := local.excerpts[b.annotations[a].tempId := id])
    case ClaimStep(f) => local.(claims := local.claims[b.findings[f].tempId := id])
    case ReportStep => local.(report := id)
  }

  datatype Attempt = Attempt(st: State, local: Local, failed: bool)

  /** One transaction of an attempt; a failure leaves the store as it was and ends the attempt. */
  ghost function DoStep(b: Bundle, step: Step, a: Attempt): Attempt
    requires (step.SourceStep? || step.ExcerptStep?) ==> step.a < |b.annotations|
    requires step.ClaimStep? ==> step.f < |b.findings|
  {
    var body := BodyOf(b, step, a.st.rows, a.local);
    if body.Err? then a.(failed := true)
    else
      var raw := Some(KeyOf(b, step));
      var o := Admit(a.st, RowFrom(b.ns, raw, TextOf(b, step), VisOf(b, step), None, body.value), raw);
      if o.result.Err? then a.(failed := true)
      else Attempt(o.st, Record(b, step, a.local, o.result.value), false)
  }

  /** An attempt that gets through at most `k` transactions. */
  ghost function Exec(b: Bundle, k: nat, st: State): Attempt
    requires k <= Length(b)
  {
    if k == 0 then Attempt(st, START, false)
    else
      var a := Exec(b, k - 1, st);
      if a.failed then a else DoStep(b, StepAt(b, k - 1), a)
  }

  ghost function Answer(a: Attempt): State {
    a.st.(rows := SetStatus(a.st.rows, a.local.question, Answered))
  }

  /** A whole replay: all transactions, then the question is answered; the report id is the result. */
  ghost function Complete(b: Bundle, st: State): Outcome {
    var a := Exec(b, Length(b), st);
    if a.failed then Outcome(a.st, Err("replay failed")) else Outcome(Answer(a), Ok(a.local.report))
  }

  /**
   * The store after an attempt that a crash cuts off after `cut` steps. Beyond the storing transactions there are two:
   * a report that was inserted answers its question, and then the replay answers it whether or not it was.
   */
  ghost function CutOff(b: Bundle, cut: nat, st: State): State {
    if cut <= Length(b) then Exec(b, cut, st).st
    else
      var a := Exec(b, Length(b), st);
      var inserted := a.st != Exec(b, Length(b) - 1, st).st;
      if a.failed || (cut == Length(b) + 1 && !inserted) then a.st else Answer(a)
  }

  ghost function Attempts(b: Bundle, cuts: seq<nat>, st: State): State
    decreases |cuts|
  {
    if cuts == [] then st else Attempts(b, cuts[1..], CutOff(b, cuts[0], st))
  }

  // ---------------------------------------------------------------- the transactions are the service's

  function QuestionPayload(b: Bundle, topic: nat): QuestionCreate {
    QuestionCreate(b.ns, Some(b.queueId + ":question"), b.text, b.vis, ExistingTopic(topic), b.prompt, Open, None, None)
  }

  function ExcerptPayload(b: Bundle, a: nat, local: Local): ExcerptCreate
    requires a < |b.annotations|
  {
    ExcerptCreate(b.ns, Some(b.queueId + ":excerpt:" + b.annotations[a].tempId), b.annotations[a].text,
                  b.annotations[a].vis, local.question, ExistingSource(local.source), Some(local.session), None)
  }

  function ClaimPayload(b: Bundle, f: nat, local: Local, excerpts: seq<nat>): ClaimCreate
    requires f < |b.findings|
  {
    ClaimCreate(b.ns, Some(b.queueId + ":claim:" + b.findings[f].tempId), b.findings[f].text, b.findings[f].vis,
                local.question, Some(local.session), None, excerpts)
  }

  function ReportPayload(b: Bundle, local: Local, claims: seq<nat>): ReportCreate {
    ReportCreate(b.ns, Some(b.queueId + ":report"), b.report.text, b.report.vis, local.question, Some(local.session),
        None, claims)
  }

  function SessionPayload(b: Bundle, local: Local): SessionCreate {
    SessionCreate(b.ns, Some(b.queueId + ":session"), b.text, b.vis, local.question, None)
  }

  function SourcePayload(b: Bundle, a: nat): SourceCreate
    requires a < |b.annotations|
  {
    var source := b.annotations[a].source;
    source.(ns := b.ns, key := Some(SourceKey(b.ns, source.locator)))
  }

  /** An attempt that took what a service call left and returned. */
  ghost function Take(b: Bundle, step: Step, a: Attempt, o: Outcome): Attempt
    requires (step.SourceStep? || step.ExcerptStep?) ==> step.a < |b.annotations|
    requires step.ClaimStep? ==> step.f < |b.findings|
  {
    if o.result.Err? then Attempt(o.st, a.local, true)
        else Attempt(o.st, Record(b, step, a.local, o.result.value), false)
  }

  /** A step does what the service operation the replay calls does, made by a local caller. */
  lemma StepsAreServiceCalls(b: Bundle, step: Step, a: Attempt)
    requires (step.SourceStep? || step.ExcerptStep?) ==> step.a < |b.annotations|
    requires step.ClaimStep? ==> step.f < |b.findings|
    ensures step.TopicStep? ==>
              DoStep(b, step, a) == Take(b, step, a, CreateTopic(a.st, FocusTopic(b.ns, b.text, b.slug), None))
    ensures step.QuestionStep? ==>
              DoStep(b, step, a) == Take(b, step, a, CreateQuestion(a.st, QuestionPayload(b, a.local.topic), None))
    ensures step.SessionStep? ==>
              DoStep(b, step, a) == Take(b, step, a, CreateSession(a.st, SessionPayload(b, a.local), None))
    ensures step.SourceStep? ==>
              DoStep(b, step, a) == Take(b, step, a, CreateSource(a.st, SourcePayload(b, step.a), None))
    ensures step.ExcerptStep? ==>
              DoStep(b, step, a) == Take(b, step, a, CreateExcerpt(a.st, ExcerptPayload(b, step.a, a.local), None))
    ensures step.ClaimStep? ==>
              var ids := Ids(a.local.excerpts, b.findings[step.f].annotations);
              DoStep(b, step, a) == if ids.Err? then a.(failed := true)
                                    else Take(b, step, a, CreateClaim(
                                             a.st, ClaimPayload(b, step.f, a.local, ids.value), None))
    ensures step.ReportStep? ==>
              var ids := Ids(a.local.claims, b.report.findings);
              DoStep(b, step, a) == if ids.Err? then a.(failed := true)
                                    else Take(b, step, a, InsertReport(
                                             a.st, ReportPayload(b, a.local, ids.value), None))
  {
    hide RelationshipsHold, FindExisting, KeyTaken, LinksAreDistinct;
  }
}
