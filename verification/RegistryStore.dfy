/**
 * The tables of the research registry (src/research_registry/service.py) and what its create operations do to them.
 * Identifiers are drawn from one counter: a new id is one no row has. Only columns that some decision reads are kept;
 * the others are one text per row.
 */
module RegistryStore {
  import opened PyText
  import opened ScopedKeys

  datatype Table = Topics | Questions | Sessions | Sources | Excerpts | Claims | Reports

  /** A primary key: a table and an id in it. */
  datatype Ref = Ref(table: Table, id: nat)

  datatype Visibility = Private | Public

  datatype IndexState = NotIndexed | NamespaceOnly | Included | Suppressed

  datatype Status = Open | Answered | InsufficientEvidence

  /** The columns of one table's rows that other rows or decisions depend on. */
  datatype Body =
    | Topic(slug: string, parent: Option<nat>)
    | Question(topic: nat, prompt: string, status: Status, parent: Option<nat>, generatedBy: Option<nat>)
    | Session(question: nat, refreshOf: Option<nat>)
    | Source(locator: string, hash: string, snapshotRequired: bool, snapshotPresent: bool)
    | Excerpt(question: nat, source: nat, session: Option<nat>, topic: nat)
    | Claim(question: nat, session: Option<nat>, topic: nat, excerpts: seq<nat>)
    | Report(question: nat, session: Option<nat>, refreshOf: Option<nat>, claims: seq<nat>)

  /** A row; topics have no visibility columns, and theirs stay private here. */
  datatype Row = Row(ns: Namespace, key: Option<string>, text: string, vis: Visibility, index: IndexState, body: Body)

  type Rows = map<Ref, Row>

  datatype State = State(rows: Rows, nextId: nat)

  /** What one operation leaves behind and what it returns; an error can follow a committed first transaction. */
  datatype Outcome = Outcome(st: State, result: Result<nat>)

  const EMPTY := State(map[], 0)

  function TableOf(body: Body): Table {
    match body
    case Topic(_, _) => Topics
    case Question(_, _, _, _, _) => Questions
    case Session(_, _) => Sessions
    case Source(_, _, _, _) => Sources
    case Excerpt(_, _, _, _) => Excerpts
    case Claim(_, _, _, _) => Claims
    case Report(_, _, _, _) => Reports
  }

  predicate IsPublic(row: Row) { row.vis == Public }

  /** A reference a mutation names: a table and an id, or no id. */
  datatype Reference = Reference(table: Table, id: Option<nat>)

  function All(table: Table, ids: seq<nat>): seq<Reference> {
    seq(|ids|, i requires 0 <= i < |ids| => Reference(table, Some(ids[i])))
  }

  /** Every reference a row stores. */
  function References(body: Body): seq<Reference> {
    match body
    case Topic(_, parent) => [Reference(Topics, parent)]
    case Question(topic, _, _, parent, generatedBy) =>
      [Reference(Topics, Some(topic)), Reference(Questions, parent), Reference(Sessions, generatedBy)]
    case Session(question, refreshOf) => [Reference(Questions, Some(question)), Reference(Sessions, refreshOf)]
    case Source(_, _, _, _) => []
    case Excerpt(question, source, session, topic) =>
      [Reference(Questions, Some(question)), Reference(Sources, Some(source)),
       Reference(Sessions, session), Reference(Topics, Some(topic))]
    case Claim(question, session, topic, excerpts) =>
      [Reference(Questions, Some(question)), Reference(Sessions, session), Reference(Topics, Some(topic))]
      + All(Excerpts, excerpts)
    case Report(question, session, refreshOf, claims) =>
      [Reference(Questions, Some(question)), Reference(Sessions, session), Reference(Reports, refreshOf)]
      + All(Claims, claims)
  }

  predicate Present(rows: Rows, r: Reference, ns: Namespace) {
    r.id.Some? ==> Ref(r.table, r.id.value) in rows && rows[Ref(r.table, r.id.value)].ns == ns
  }

  /** The check every mutation makes: each reference it names is a row of the mutation's namespace. */
  predicate RelationshipsHold(rows: Rows, references: seq<Reference>, ns: Namespace) {
    forall i :: 0 <= i < |references| ==> Present(rows, references[i], ns)
  }

  // ---------------------------------------------------------------- lookups before an insert

  /** What makes a second row of a table redundant in its namespace. */
  datatype NaturalKey = NoNaturalKey | BySlug(slug: string) | ByPrompt(topic: nat, prompt: string)
                      | ByContent(locator: string, hash: string)

  function Natural(body: Body): NaturalKey {
    match body
    case Topic(slug, _) => BySlug(slug)
    case Question(topic, prompt, _, _, _) => ByPrompt(topic, prompt)
    case Source(locator, hash, _, _) => ByContent(locator, hash)
    case _ => NoNaturalKey
  }

  predicate HasKey(rows: Rows, table: Table, ns: Namespace, key: string, id: nat) {
    Ref(table, id) in rows && rows[Ref(table, id)].ns == ns && rows[Ref(table, id)].key == Some(key)
  }

  predicate HasNatural(rows: Rows, table: Table, ns: Namespace, natural: NaturalKey, id: nat) {
    natural != NoNaturalKey
    && Ref(table, id) in rows && rows[Ref(table, id)].ns == ns && Natural(rows[Ref(table, id)].body) == natural
  }

  /** A row with the scoped key if there is one, else a row with the key as given. */
  ghost function FindByKey(rows: Rows, table: Table, raw: Option<string>, ns: Namespace): (r: Option<nat>)
  {
    var scoped := Scoped(raw, ns);
    if scoped == None then None
    else if exists id :: HasKey(rows, table, ns, scoped.value, id) then
      var id :| HasKey(rows, table, ns, scoped.value, id);
      Some(id)
    else if exists id :: HasKey(rows, table, ns, raw.value, id) then
      var id :| HasKey(rows, table, ns, raw.value, id);
      Some(id)
    else None
  }

  ghost function FindByNatural(rows: Rows, table: Table, ns: Namespace, natural: NaturalKey): (r: Option<nat>)
  {
    if exists id :: HasNatural(rows, table, ns, natural, id) then
      var id :| HasNatural(rows, table, ns, natural, id);
      Some(id)
    else None
  }

  ghost function FindExisting(rows: Rows, row: Row, raw: Option<string>): Option<nat> {
    var byKey := FindByKey(rows, TableOf(row.body), raw, row.ns);
    if byKey.Some? then byKey else FindByNatural(rows, TableOf(row.body), row.ns, Natural(row.body))
  }

  /** The unique constraint on `dedupe_key` spans all namespaces of a table. */
  predicate KeyTaken(rows: Rows, table: Table, key: Option<string>) {
    key.Some? && exists r :: r in rows && r.table == table && rows[r].key == key
  }

  predicate NoRepeats(ids: seq<nat>) {
    forall i, j :: 0 <= i < j < |ids| ==> ids[i] != ids[j]
  }

  /** The primary keys of the link tables allow each linked record once. */
  predicate LinksAreDistinct(body: Body) {
    match body
    case Claim(_, _, _, excerpts) => NoRepeats(excerpts)
    case Report(_, _, _, claims) => NoRepeats(claims)
    case _ => true
  }

  const UNAVAILABLE := "referenced record is not available for this mutation"
  const CONSTRAINT := "constraint failed"

  /**
   * One check-then-insert transaction: the references `row` is to store are checked, then a row with its key or
   * natural key is looked for, then `row` is inserted. `row` carries its scoped key, `raw` is the key as given.
   */
  ghost function Admit(st: State, row: Row, raw: Option<string>): Outcome {
    if !RelationshipsHold(st.rows, References(row.body), row.ns) then Outcome(st, Err(UNAVAILABLE))
    else
      var existing := FindExisting(st.rows, row, raw);
      if existing.Some? then Outcome(st, Ok(existing.value))
      else if KeyTaken(st.rows, TableOf(row.body), row.key) || !LinksAreDistinct(row.body) then
        Outcome(st, Err(CONSTRAINT))
      else Outcome(State(st.rows[Ref(TableOf(row.body), st.nextId) := row], st.nextId + 1), Ok(st.nextId))
  }

  // ---------------------------------------------------------------- the create operations

  datatype Scope = Ingest | Publish | ReadPrivate | Admin

  datatype Auth = Auth(ns: Namespace, scopes: set<Scope>, isAdmin: bool)

  predicate HasScope(auth: Auth, scope: Scope) { auth.isAdmin || scope in auth.scopes }

  /** An authenticated create starts private, whatever its payload asks for. */
  function Governed(vis: Visibility, auth: Option<Auth>): Visibility {
    if auth.Some? then Private else vis
  }

  function IndexFor(vis: Visibility, includeInGlobalIndex: bool): IndexState {
    if vis == Private then NotIndexed else if includeInGlobalIndex then Included else NamespaceOnly
  }

  /** The namespace a write goes to; only an admin or a local caller may choose it. */
  function WriteNamespace(ns: Namespace, auth: Option<Auth>): Result<Namespace> {
    if auth == None then Ok(ns)
    else if !HasScope(auth.value, Ingest) then Err("ingest scope required")
    else if auth.value.isAdmin then Ok(ns)
    else Ok(auth.value.ns)
  }

  datatype TopicCreate = TopicCreate(ns: Namespace, key: Option<string>, text: string, slug: string,
      parent: Option<nat>)

  datatype TopicChoice = ExistingTopic(id: nat) | Focus(slug: string)

  datatype QuestionCreate = QuestionCreate(ns: Namespace, key: Option<string>, text: string, vis: Visibility,
                                           topic: TopicChoice, prompt: string, status: Status,
                                           parent: Option<nat>, generatedBy: Option<nat>)

  datatype SessionCreate = SessionCreate(ns: Namespace, key: Option<string>, text: string, vis: Visibility,
                                         question: nat, refreshOf: Option<nat>)

  datatype SourceCreate = SourceCreate(ns: Namespace, key: Option<string>, text: string, vis: Visibility,
                                       locator: string, hash: Option<string>,
                                       snapshotRequired: bool, snapshotPresent: bool)

  datatype SourceChoice = ExistingSource(id: nat) | NewSource(source: SourceCreate)

  datatype ExcerptCreate = ExcerptCreate(ns: Namespace, key: Option<string>, text: string, vis: Visibility,
                                         question: nat, source: SourceChoice, session: Option<nat>, topic: Option<nat>)

  datatype ClaimCreate = ClaimCreate(ns: Namespace, key: Option<string>, text: string, vis: Visibility,
                                     question: nat, session: Option<nat>, topic: Option<nat>, excerpts: seq<nat>)

  datatype ReportCreate = ReportCreate(ns: Namespace, key: Option<string>, text: string, vis: Visibility,
                                       question: nat, session: Option<nat>, refreshOf: Option<nat>, claims: seq<nat>)

  /** The key under which a question's focus finds its topic. */
  function FocusKey(ns: Namespace, slug: string): string {
    "topic:" + KindName(ns.kind) + ":" + ns.id + ":" + slug
  }

  function FocusTopic(ns: Namespace, text: string, slug: string): TopicCreate {
    TopicCreate(ns, Some(FocusKey(ns, slug)), text, slug, None)
  }

  /** The row a payload asks for, with its key scoped and, for an authenticated caller, its visibility overridden. */
  function RowFrom(ns: Namespace, key: Option<string>, text: string, vis: Visibility, auth: Option<Auth>,
      body: Body): Row {
    Row(ns, Scoped(key, ns), text, Governed(vis, auth), IndexFor(Governed(vis, auth), false), body)
  }

  ghost function CreateTopic(st: State, p: TopicCreate, auth: Option<Auth>): Outcome {
    var ns := WriteNamespace(p.ns, auth);
    if ns.Err? then Outcome(st, Err(ns.message))
    else
      var row := RowFrom(ns.value, p.key, p.text, Private, auth, Topic(p.slug, p.parent));
      Admit(st, row, p.key)
  }

  /**
   * `p.prompt` is the normalized prompt and `p.text` the original one.
   * A question without a topic first finds or creates the topic of its focus, in a transaction of its own.
   */
  ghost function CreateQuestion(st: State, p: QuestionCreate, auth: Option<Auth>): Outcome {
    var ns := WriteNamespace(p.ns, auth);
    if ns.Err? then Outcome(st, Err(ns.message))
    else
      var topic := if p.topic.Focus? then CreateTopic(st, FocusTopic(ns.value, p.text, p.topic.slug), auth)
                   else Outcome(st, Ok(p.topic.id));
      if topic.result.Err? then topic
      else
        var row := RowFrom(ns.value, p.key, p.text, p.vis, auth,
                           Question(topic.result.value, p.prompt, p.status, p.parent, p.generatedBy));
        Admit(topic.st, row, p.key)
  }

  ghost function CreateSession(st: State, p: SessionCreate, auth: Option<Auth>): Outcome {
    var ns := WriteNamespace(p.ns, auth);
    if ns.Err? then Outcome(st, Err(ns.message))
    else
      var row := RowFrom(ns.value, p.key, p.text, p.vis, auth, Session(p.question, p.refreshOf));
      Admit(st, row, p.key)
  }

  /** A missing hash and an empty one compare equal, so the empty text stands for both. */
  ghost function CreateSource(st: State, p: SourceCreate, auth: Option<Auth>): Outcome {
    var ns := WriteNamespace(p.ns, auth);
    if ns.Err? then Outcome(st, Err(ns.message))
    else
      var row := RowFrom(ns.value, p.key, p.text, p.vis, auth,
                         Source(p.locator, if p.hash.Some? then p.hash.value else "",
                                p.snapshotRequired, p.snapshotPresent));
      Admit(st, row, p.key)
  }

  /** The topic a new excerpt or claim takes when it names none: its question's. */
  function TopicOrQuestions(rows: Rows, topic: Option<nat>, question: nat): Result<nat> {
    var q := Ref(Questions, question);
    if topic.Some? then Ok(topic.value)
    else if q in rows && rows[q].body.Question? then Ok(rows[q].body.topic)
    else Err(UNAVAILABLE)
  }

  ghost function CreateExcerpt(st: State, p: ExcerptCreate, auth: Option<Auth>): Outcome {
    var ns := WriteNamespace(p.ns, auth);
    if ns.Err? then Outcome(st, Err(ns.message))
    else
      var source := if p.source.NewSource? then CreateSource(st, p.source.source.(ns := ns.value), auth)
                    else Outcome(st, Ok(p.source.id));
      if source.result.Err? then source
      else
        var topic := TopicOrQuestions(source.st.rows, p.topic, p.question);
        if topic.Err? then Outcome(source.st, Err(topic.message))
        else
          var row := RowFrom(ns.value, p.key, p.text, p.vis, auth,
                             Excerpt(p.question, source.result.value, p.session, topic.value));
          Admit(source.st, row, p.key)
  }

  ghost function CreateClaim(st: State, p: ClaimCreate, auth: Option<Auth>): Outcome {
    var ns := WriteNamespace(p.ns, auth);
    if ns.Err? then Outcome(st, Err(ns.message))
    else
      var topic := TopicOrQuestions(st.rows, p.topic, p.question);
      if topic.Err? then Outcome(st, Err(topic.message))
      else
        var row := RowFrom(ns.value, p.key, p.text, p.vis, auth, Claim(p.question, p.session, topic.value, p.excerpts));
        Admit(st, row, p.key)
  }

  /** The transaction that stores a report; the caller answers the question in a second one. */
  ghost function InsertReport(st: State, p: ReportCreate, auth: Option<Auth>): Outcome {
    var ns := WriteNamespace(p.ns, auth);
    if ns.Err? then Outcome(st, Err(ns.message))
    else
      var row := RowFrom(ns.value, p.key, p.text, p.vis, auth, Report(p.question, p.session, p.refreshOf, p.claims));
      Admit(st, row, p.key)
  }

  function SetStatus(rows: Rows, question: nat, status: Status): Rows {
    var q := Ref(Questions, question);
    if q in rows && rows[q].body.Question? then rows[q := rows[q].(body := rows[q].body.(status := status))] else rows
  }

  /** Only a report that was really inserted answers its question here. */
  ghost function CreateReport(st: State, p: ReportCreate, auth: Option<Auth>): Outcome {
    var inserted := InsertReport(st, p, auth);
    if inserted.st == st then inserted
    else inserted.(st := inserted.st.(rows := SetStatus(inserted.st.rows, p.question, Answered)))
  }

  // ---------------------------------------------------------------- what every operation keeps

  ghost predicate WellTyped(st: State) {
    forall r <- st.rows :: TableOf(st.rows[r].body) == r.table && r.id < st.nextId
  }

  /** Every stored reference joins two rows of one namespace. */
  ghost predicate ReferencesStayHome(rows: Rows) {
    forall r <- rows :: RelationshipsHold(rows, References(rows[r].body), rows[r].ns)
  }

  ghost predicate KeysAreScoped(rows: Rows) {
    forall r <- rows :: rows[r].key.Some? ==> Prefix(rows[r].ns) <= rows[r].key.value
  }

  ghost predicate KeysAreUnique(rows: Rows) {
    forall r, s :: r in rows && s in rows && r.table == s.table && rows[r].key.Some? && rows[r].key == rows[s].key
        ==> r == s
  }

  /** One topic per slug, one question per topic and prompt, one source per locator and hash, in each namespace. */
  ghost predicate NaturalKeysAreUnique(rows: Rows) {
    forall r, s ::
      && r in rows && s in rows && r.table == s.table && rows[r].ns == rows[s].ns
      && Natural(rows[r].body) == Natural(rows[s].body) != NoNaturalKey
      ==> r == s
  }

  ghost predicate Valid(st: State) {
    WellTyped(st) && ReferencesStayHome(st.rows) && KeysAreScoped(st.rows)
    && KeysAreUnique(st.rows) && NaturalKeysAreUnique(st.rows)
  }

  /** The part of a row no operation changes. */
  function Fixed(row: Row): Row {
    row.(vis := Private, index := NotIndexed,
         body := if row.body.Question? then row.body.(status := Open) else row.body)
  }

  /** Rows are never lost, change only in status, visibility and index state, and never become private again. */
  ghost predicate Extends(old_: Rows, new_: Rows) {
    forall r <- old_ :: r in new_ && Fixed(new_[r]) == Fixed(old_[r]) && (IsPublic(old_[r]) ==> IsPublic(new_[r]))
  }
}
