/**
 * What the create operations come to, said by the stored columns alone: who may create where, what a new record must
 * name, when an old row is returned instead, and what the new row holds.
 */
module CreateMeaning {
  import opened PyText
  import opened ScopedKeys
  import opened RegistryStore
  import opened RegistryLaws

  // ---------------------------------------------------------------- who writes where

  predicate MayWrite(auth: Option<Auth>) {
    auth == None || auth.value.isAdmin || Ingest in auth.value.scopes
  }

  /** Local callers and admins write to the namespace they name, all others to their own. */
  function Home(ns: Namespace, auth: Option<Auth>): Namespace {
    match auth case None => ns case Some(caller) => if caller.isAdmin then ns else caller.ns
  }

  /** A new row: what a caller with credentials creates is private, and no row starts in the global index. */
  function NewRow(ns: Namespace, key: Option<string>, text: string, vis: Visibility, auth: Option<Auth>,
      body: Body): Row
  {
    var home := Home(ns, auth);
    if auth.Some? || vis == Private then Row(home, Scoped(key, home), text, Private, NotIndexed, body)
    else Row(home, Scoped(key, home), text, Public, NamespaceOnly, body)
  }

  // ---------------------------------------------------------------- what a row names

  predicate StoredIn(rows: Rows, ns: Namespace, table: Table, id: nat) {
    Ref(table, id) in rows && rows[Ref(table, id)].ns == ns
  }

  predicate StoredIfNamed(rows: Rows, ns: Namespace, table: Table, id: Option<nat>) {
    id.Some? ==> StoredIn(rows, ns, table, id.value)
  }

  predicate AllStoredIn(rows: Rows, ns: Namespace, table: Table, ids: seq<nat>) {
    forall i :: 0 <= i < |ids| ==> StoredIn(rows, ns, table, ids[i])
  }

  /** Every record the columns name is stored in the namespace. */
  predicate NamesStored(rows: Rows, ns: Namespace, body: Body) {
    match body
    case Topic(_, parent) => StoredIfNamed(rows, ns, Topics, parent)
    case Question(topic, _, _, parent, generatedBy) =>
      && StoredIn(rows, ns, Topics, topic) && StoredIfNamed(rows, ns, Questions, parent)
      && StoredIfNamed(rows, ns, Sessions, generatedBy)
    case Session(question, refreshOf) =>
      StoredIn(rows, ns, Questions, question) && StoredIfNamed(rows, ns, Sessions, refreshOf)
    case Source(_, _, _, _) => true
    case Excerpt(question, source, session, topic) =>
      && StoredIn(rows, ns, Questions, question) && StoredIn(rows, ns, Sources, source)
      && StoredIfNamed(rows, ns, Sessions, session) && StoredIn(rows, ns, Topics, topic)
    case Claim(question, session, topic, excerpts) =>
      && StoredIn(rows, ns, Questions, question) && StoredIfNamed(rows, ns, Sessions, session)
      && StoredIn(rows, ns, Topics, topic) && AllStoredIn(rows, ns, Excerpts, excerpts)
    case Report(question, session, refreshOf, claims) =>
      && StoredIn(rows, ns, Questions, question) && StoredIfNamed(rows, ns, Sessions, session)
      && StoredIfNamed(rows, ns, Reports, refreshOf) && AllStoredIn(rows, ns, Claims, claims)
  }

  lemma TwoPresent(rows: Rows, ns: Namespace, a: Reference, b: Reference)
    ensures RelationshipsHold(rows, [a, b], ns) <==> Present(rows, a, ns) && Present(rows, b, ns)
  {
    var s := [a, b];
    assert s[0] == a && s[1] == b;
  }

  lemma SomePresent(rows: Rows, ns: Namespace, front: seq<Reference>, table: Table, ids: seq<nat>)
    ensures RelationshipsHold(rows, front + All(table, ids), ns)
       <==> RelationshipsHold(rows, front, ns) && AllStoredIn(rows, ns, table, ids)
  {
    var all := front + All(table, ids);
    assert forall i :: 0 <= i < |front| ==> all[i] == front[i];
    assert forall i :: 0 <= i < |ids| ==> all[|front| + i] == Reference(table, Some(ids[i]));
    if AllStoredIn(rows, ns, table, ids) && RelationshipsHold(rows, front, ns) {
      forall i | 0 <= i < |all| ensures Present(rows, all[i], ns) {
        if i >= |front| {
          assert all[i] == Reference(table, Some(ids[i - |front|]));
        }
      }
    }
    if RelationshipsHold(rows, all, ns) {
      forall i | 0 <= i < |ids| ensures StoredIn(rows, ns, table, ids[i]) {
        assert Present(rows, all[|front| + i], ns);
      }
      forall i | 0 <= i < |front| ensures Present(rows, front[i], ns) {
        assert Present(rows, all[i], ns);
      }
    }
  }

  lemma ThreePresent(rows: Rows, ns: Namespace, a: Reference, b: Reference, c: Reference)
    ensures RelationshipsHold(rows, [a, b, c], ns) <==>
              Present(rows, a, ns) && Present(rows, b, ns) && Present(rows, c, ns)
  {
    var s := [a, b, c];
    assert s[0] == a && s[1] == b && s[2] == c;
  }

  lemma NamesStoredIsChecked(rows: Rows, ns: Namespace, body: Body)
    ensures NamesStored(rows, ns, body) <==> RelationshipsHold(rows, References(body), ns)
  {
    hide RelationshipsHold, AllStoredIn;
    match body
    case Topic(_, parent) => OnePresent(rows, ns, Reference(Topics, parent));
    case Question(topic, _, _, parent, generatedBy) =>
      ThreePresent(rows, ns, Reference(Topics, Some(topic)), Reference(Questions, parent),
                   Reference(Sessions, generatedBy));
    case Session(question, refreshOf) =>
      TwoPresent(rows, ns, Reference(Questions, Some(question)), Reference(Sessions, refreshOf));
    case Source(_, _, _, _) => NonePresent(rows, ns);
    case Excerpt(question, source, session, topic) =>
      FourPresent(rows, ns, Reference(Questions, Some(question)), Reference(Sources, Some(source)),
                  Reference(Sessions, session), Reference(Topics, Some(topic)));
    case Claim(question, session, topic, excerpts) =>
      var q, s, t := Reference(Questions, Some(question)), Reference(Sessions, session), Reference(Topics, Some(topic));
      ThreePresent(rows, ns, q, s, t);
      SomePresent(rows, ns, [q, s, t], Excerpts, excerpts);
    case Report(question, session, refreshOf, claims) =>
      var q, s, r := Reference(Questions, Some(question)), Reference(Sessions, session), Reference(Reports, refreshOf);
      ThreePresent(rows, ns, q, s, r);
      SomePresent(rows, ns, [q, s, r], Claims, claims);
  }

  lemma NonePresent(rows: Rows, ns: Namespace)
    ensures RelationshipsHold(rows, [], ns)
  {
  }

  lemma OnePresent(rows: Rows, ns: Namespace, a: Reference)
    ensures RelationshipsHold(rows, [a], ns) <==> Present(rows, a, ns)
  {
    var s := [a];
    assert s[0] == a;
  }

  lemma FourPresent(rows: Rows, ns: Namespace, a: Reference, b: Reference, c: Reference, d: Reference)
    ensures RelationshipsHold(rows, [a, b, c, d], ns)
       <==> Present(rows, a, ns) && Present(rows, b, ns) && Present(rows, c, ns) && Present(rows, d, ns)
  {
    var s := [a, b, c, d];
    assert s[0] == a && s[1] == b && s[2] == c && s[3] == d;
  }

  /** In a store that holds its invariants, every record any row names is there, in the row's own namespace. */
  lemma StoredRowsNameStoredRows(st: State, r: Ref)
    requires Valid(st) && r in st.rows
    ensures NamesStored(st.rows, st.rows[r].ns, st.rows[r].body)
  {
    NamesStoredIsChecked(st.rows, st.rows[r].ns, st.rows[r].body);
    hide NamesStored;
    assert RelationshipsHold(st.rows, References(st.rows[r].body), st.rows[r].ns);
  }

  // ---------------------------------------------------------------- rows that are there already

  /** A row of the namespace that carries the key. */
  predicate Carries(rows: Rows, table: Table, ns: Namespace, key: Option<string>, id: nat) {
    StoredIn(rows, ns, table, id) && key.Some? && rows[Ref(table, id)].key == key
  }

  /** Two topics of one slug, two questions of one topic and prompt, two sources of one locator and hash. */
  predicate Twins(a: Body, b: Body) {
    match a
    case Topic(slug, _) => b.Topic? && b.slug == slug
    case Question(topic, prompt, _, _, _) => b.Question? && b.topic == topic && b.prompt == prompt
    case Source(locator, hash, _, _) => b.Source? && b.locator == locator && b.hash == hash
    case _ => false
  }

  predicate IsTwin(rows: Rows, table: Table, ns: Namespace, body: Body, id: nat) {
    StoredIn(rows, ns, table, id) && Twins(rows[Ref(table, id)].body, body)
  }

  predicate LinksOnce(body: Body) {
    match body
    case Claim(_, _, _, excerpts) => forall i, j :: 0 <= i < j < |excerpts| ==> excerpts[i] != excerpts[j]
    case Report(_, _, _, claims) => forall i, j :: 0 <= i < j < |claims| ==> claims[i] != claims[j]
    case _ => true
  }

  function TableFor(body: Body): Table {
    match body
    case Topic(_, _) => Topics
    case Question(_, _, _, _, _) => Questions
    case Session(_, _) => Sessions
    case Source(_, _, _, _) => Sources
    case Excerpt(_, _, _, _) => Excerpts
    case Claim(_, _, _, _) => Claims
    case Report(_, _, _, _) => Reports
  }

  ghost predicate IsCarried(rows: Rows, row: Row) {
    exists id :: Carries(rows, TableFor(row.body), row.ns, row.key, id)
  }

  ghost predicate HasTwin(rows: Rows, row: Row) {
    exists id :: IsTwin(rows, TableFor(row.body), row.ns, row.body, id)
  }

  /** The row that carries the key if there is one, else a twin, else the new row under an id that was free. */
  ghost predicate Settles(st: State, row: Row, o: Outcome) {
    && o.result.Ok?
    && var table, id := TableFor(row.body), o.result.value;
       if IsCarried(st.rows, row) then o.st == st && Carries(st.rows, table, row.ns, row.key, id)
       else if HasTwin(st.rows, row) then o.st == st && IsTwin(st.rows, table, row.ns, row.body, id)
       else Ref(table, id) !in st.rows && o.st.rows == st.rows[Ref(table, id) := row]
  }

  /** One create transaction: refused exactly for what it names or links twice, and then nothing changes. */
  ghost predicate Transacts(st: State, row: Row, o: Outcome) {
    && (o.result.Ok? <==> NamesStored(st.rows, row.ns, row.body)
                          && (IsCarried(st.rows, row) || HasTwin(st.rows, row) || LinksOnce(row.body)))
    && (o.result.Ok? ==> Settles(st, row, o))
    && (o.result.Err? ==> o.st == st)
  }

  lemma FoundRows(st: State, row: Row, raw: Option<string>)
    requires Valid(st) && row.key == Scoped(raw, row.ns)
    ensures var found := FindExisting(st.rows, row, raw);
            if IsCarried(st.rows, row) then
              found.Some? && Carries(st.rows, TableFor(row.body), row.ns, row.key, found.value)
            else if HasTwin(st.rows, row) then
              found.Some? && IsTwin(st.rows, TableFor(row.body), row.ns, row.body, found.value)
            else found == None
  {
    var table := TableFor(row.body);
    assert table == TableOf(row.body);
    forall id: nat
      ensures FindByKey(st.rows, table, raw, row.ns) == Some(id) <==> Carries(st.rows, table, row.ns, row.key, id)
      ensures FindByNatural(st.rows, table, row.ns, Natural(row.body)) == Some(id)
              <==> IsTwin(st.rows, table, row.ns, row.body, id)
    {
      FindByKeyFindsTheHolder(st, table, raw, row.ns, id);
      FindByNaturalFindsTheHolder(st, table, row.ns, Natural(row.body), id);
      TwinsAreNatural(st, row, id);
    }
    hide Valid, FindByKey, FindByNatural, Carries, IsTwin, Natural, TableOf, TableFor;
  }

  lemma TwinsAreNatural(st: State, row: Row, id: nat)
    requires Valid(st)
    ensures HasNatural(st.rows, TableOf(row.body), row.ns, Natural(row.body), id)
       <==> IsTwin(st.rows, TableOf(row.body), row.ns, row.body, id)
  {
  }

  lemma AdmitTransacts(st: State, row: Row, raw: Option<string>)
    requires Valid(st) && row.key == Scoped(raw, row.ns)
    ensures Transacts(st, row, Admit(st, row, raw))
  {
    NamesStoredIsChecked(st.rows, row.ns, row.body);
    FoundRows(st, row, raw);
    AdmitRefusesExactly(st, row, raw);
    NewIdIsFree(st, row, raw);
    assert LinksOnce(row.body) <==> LinksAreDistinct(row.body);
    hide Valid, FindExisting, IsCarried, HasTwin, NamesStored, Carries, IsTwin, LinksOnce, LinksAreDistinct,
         RelationshipsHold, KeyTaken;
  }

  lemma NewIdIsFree(st: State, row: Row, raw: Option<string>)
    requires Valid(st)
    ensures TableFor(row.body) == TableOf(row.body) && Ref(TableOf(row.body), st.nextId) !in st.rows
  {
  }

  // ---------------------------------------------------------------- the operations

  ghost predicate Writes(st: State, auth: Option<Auth>, row: Row, o: Outcome) {
    if MayWrite(auth) then Transacts(st, row, o) else o.result.Err? && o.st == st
  }

  /** Both accounts agree on who writes where, and on the row. */
  lemma RowIsNew(ns: Namespace, key: Option<string>, text: string, vis: Visibility, auth: Option<Auth>, body: Body)
    ensures MayWrite(auth) <==> WriteNamespace(ns, auth).Ok?
    ensures MayWrite(auth) ==> WriteNamespace(ns, auth).value == Home(ns, auth)
    ensures NewRow(ns, key, text, vis, auth, body) == RowFrom(Home(ns, auth), key, text, vis, auth, body)
  {
  }

  lemma TopicWrites(st: State, p: TopicCreate, auth: Option<Auth>)
    requires Valid(st)
    ensures Writes(st, auth, NewRow(p.ns, p.key, p.text, Private, auth, Topic(p.slug, p.parent)),
                   CreateTopic(st, p, auth))
  {
    hide Valid, Admit, Transacts, WriteNamespace, RowFrom, NewRow, MayWrite;
    var body := Topic(p.slug, p.parent);
    RowIsNew(p.ns, p.key, p.text, Private, auth, body);
    RowKey(Home(p.ns, auth), p.key, p.text, Private, auth, body);
    if MayWrite(auth) {
      AdmitTransacts(st, NewRow(p.ns, p.key, p.text, Private, auth, body), p.key);
    }
  }

  lemma RowKey(ns: Namespace, key: Option<string>, text: string, vis: Visibility, auth: Option<Auth>, body: Body)
    ensures var row := RowFrom(ns, key, text, vis, auth, body);
            row.ns == ns && row.key == Scoped(key, ns) && row.body == body
  {
  }

  lemma SessionWrites(st: State, p: SessionCreate, auth: Option<Auth>)
    requires Valid(st)
    ensures Writes(st, auth, NewRow(p.ns, p.key, p.text, p.vis, auth, Session(p.question, p.refreshOf)),
                   CreateSession(st, p, auth))
  {
    hide Valid, Admit, Transacts, WriteNamespace, RowFrom, NewRow, MayWrite;
    var body := Session(p.question, p.refreshOf);
    RowIsNew(p.ns, p.key, p.text, p.vis, auth, body);
    RowKey(Home(p.ns, auth), p.key, p.text, p.vis, auth, body);
    if MayWrite(auth) {
      AdmitTransacts(st, NewRow(p.ns, p.key, p.text, p.vis, auth, body), p.key);
    }
  }

  function SourceColumns(p: SourceCreate): Body {
    Source(p.locator, match p.hash case Some(hash) => hash case None => "", p.snapshotRequired, p.snapshotPresent)
  }

  lemma SourceWrites(st: State, p: SourceCreate, auth: Option<Auth>)
    requires Valid(st)
    ensures Writes(st, auth, NewRow(p.ns, p.key, p.text, p.vis, auth, SourceColumns(p)), CreateSource(st, p, auth))
  {
    hide Valid, Admit, Transacts, WriteNamespace, RowFrom, NewRow, MayWrite;
    RowIsNew(p.ns, p.key, p.text, p.vis, auth, SourceColumns(p));
    RowKey(Home(p.ns, auth), p.key, p.text, p.vis, auth, SourceColumns(p));
    if MayWrite(auth) {
      AdmitTransacts(st, NewRow(p.ns, p.key, p.text, p.vis, auth, SourceColumns(p)), p.key);
    }
  }

  /** The topic named, or else the one of the question. */
  predicate TakesTopic(rows: Rows, named: Option<nat>, question: nat, topic: nat) {
    match named
    case Some(id) => topic == id
    case None => Ref(Questions, question) in rows && rows[Ref(Questions, question)].body.Question?
                 && topic == rows[Ref(Questions, question)].body.topic
  }

  lemma TopicTaken(rows: Rows, named: Option<nat>, question: nat)
    ensures forall topic: nat ::
              TopicOrQuestions(rows, named, question) == Ok(topic) <==> TakesTopic(rows, named, question, topic)
    ensures TopicOrQuestions(rows, named, question).Err? <==> !exists topic :: TakesTopic(rows, named, question, topic)
  {
    if TopicOrQuestions(rows, named, question).Ok? {
      assert TakesTopic(rows, named, question, TopicOrQuestions(rows, named, question).value);
    }
  }

  lemma ClaimWrites(st: State, p: ClaimCreate, auth: Option<Auth>)
    requires Valid(st)
    ensures forall topic :: TakesTopic(st.rows, p.topic, p.question, topic) ==>
              Writes(st, auth, NewRow(p.ns, p.key, p.text, p.vis, auth,
                                      Claim(p.question, p.session, topic, p.excerpts)),
                     CreateClaim(st, p, auth))
    ensures (!exists topic :: TakesTopic(st.rows, p.topic, p.question, topic)) ==>
              CreateClaim(st, p, auth).result.Err? && CreateClaim(st, p, auth).st == st
  {
    hide Valid, Admit, Transacts, WriteNamespace, RowFrom, NewRow, MayWrite, TopicOrQuestions, TakesTopic;
    TopicTaken(st.rows, p.topic, p.question);
    forall topic | TakesTopic(st.rows, p.topic, p.question, topic)
      ensures Writes(st, auth, NewRow(p.ns, p.key, p.text, p.vis, auth,
                                      Claim(p.question, p.session, topic, p.excerpts)), CreateClaim(st, p, auth))
    {
      var body := Claim(p.question, p.session, topic, p.excerpts);
      RowIsNew(p.ns, p.key, p.text, p.vis, auth, body);
      RowKey(Home(p.ns, auth), p.key, p.text, p.vis, auth, body);
      if MayWrite(auth) {
        AdmitTransacts(st, NewRow(p.ns, p.key, p.text, p.vis, auth, body), p.key);
      }
    }
  }

  lemma ReportInserts(st: State, p: ReportCreate, auth: Option<Auth>)
    requires Valid(st)
    ensures Writes(st, auth, NewRow(p.ns, p.key, p.text, p.vis, auth,
                                    Report(p.question, p.session, p.refreshOf, p.claims)), InsertReport(st, p, auth))
  {
    hide Valid, Admit, Transacts, WriteNamespace, RowFrom, NewRow, MayWrite;
    var body := Report(p.question, p.session, p.refreshOf, p.claims);
    RowIsNew(p.ns, p.key, p.text, p.vis, auth, body);
    RowKey(Home(p.ns, auth), p.key, p.text, p.vis, auth, body);
    if MayWrite(auth) {
      AdmitTransacts(st, NewRow(p.ns, p.key, p.text, p.vis, auth, body), p.key);
    }
  }

  /** The question is answered, and nothing else changes. */
  predicate Answers(rows: Rows, question: nat, next: Rows) {
    && next.Keys == rows.Keys
    && forall r :: r in rows ==>
         next[r] == if r == Ref(Questions, question) && rows[r].body.Question? then
                      rows[r].(body := rows[r].body.(status := Answered))
                    else rows[r]
  }

  /** A report is stored or found; one that was stored then answers its question. */
  lemma ReportWrites(st: State, p: ReportCreate, auth: Option<Auth>)
    requires Valid(st)
    ensures var o := CreateReport(st, p, auth);
            exists stored: Outcome ::
              && Writes(st, auth, NewRow(p.ns, p.key, p.text, p.vis, auth,
                                         Report(p.question, p.session, p.refreshOf, p.claims)), stored)
              && o.result == stored.result
              && if stored.st == st then o.st == st else Answers(stored.st.rows, p.question, o.st.rows)
  {
    hide Valid, Writes, InsertReport, NewRow;
    ReportInserts(st, p, auth);
    var stored := InsertReport(st, p, auth);
    assert Answers(stored.st.rows, p.question, SetStatus(stored.st.rows, p.question, Answered));
  }

  // ---------------------------------------------------------------- questions with a focus, excerpts with a source

  function FocusRow(ns: Namespace, text: string, slug: string, auth: Option<Auth>): Row {
    NewRow(ns, Some("topic:" + (match Home(ns, auth).kind case User => "user" case Org => "org") + ":"
                    + Home(ns, auth).id + ":" + slug), text, Private, auth, Topic(slug, None))
  }

  function QuestionRow(p: QuestionCreate, topic: nat, auth: Option<Auth>): Row {
    NewRow(p.ns, p.key, p.text, p.vis, auth, Question(topic, p.prompt, p.status, p.parent, p.generatedBy))
  }

  lemma FocusWrites(st: State, ns: Namespace, text: string, slug: string, auth: Option<Auth>)
    requires Valid(st)
    ensures Writes(st, auth, FocusRow(ns, text, slug, auth),
                   CreateTopic(st, FocusTopic(Home(ns, auth), text, slug), auth))
    ensures Valid(CreateTopic(st, FocusTopic(Home(ns, auth), text, slug), auth).st)
  {
    hide Valid, CreateTopic, Writes;
    TopicWrites(st, FocusTopic(Home(ns, auth), text, slug), auth);
    CreateTopicKeeps(st, FocusTopic(Home(ns, auth), text, slug), auth);
    assert Home(Home(ns, auth), auth) == Home(ns, auth);
  }

  lemma QuestionInserts(st: State, p: QuestionCreate, topic: nat, auth: Option<Auth>)
    requires Valid(st) && MayWrite(auth)
    ensures var row := RowFrom(Home(p.ns, auth), p.key, p.text, p.vis, auth,
                               Question(topic, p.prompt, p.status, p.parent, p.generatedBy));
            Writes(st, auth, QuestionRow(p, topic, auth), Admit(st, row, p.key))
  {
    hide Valid, Admit, Transacts, RowFrom, NewRow, MayWrite;
    var body := Question(topic, p.prompt, p.status, p.parent, p.generatedBy);
    RowIsNew(p.ns, p.key, p.text, p.vis, auth, body);
    RowKey(Home(p.ns, auth), p.key, p.text, p.vis, auth, body);
    AdmitTransacts(st, NewRow(p.ns, p.key, p.text, p.vis, auth, body), p.key);
  }

  /** A question about a topic that is named is one transaction; otherwise the topic of its focus comes first. */
  lemma QuestionWrites(st: State, p: QuestionCreate, auth: Option<Auth>)
    requires Valid(st)
    ensures var o := CreateQuestion(st, p, auth);
            match p.topic
            case ExistingTopic(id) => Writes(st, auth, QuestionRow(p, id, auth), o)
            case Focus(slug) =>
              exists first: Outcome ::
                && Writes(st, auth, FocusRow(p.ns, p.text, slug, auth), first)
                && if first.result.Err? then o.result.Err? && o.st == first.st
                   else Writes(first.st, auth, QuestionRow(p, first.result.value, auth), o)
  {
    hide Valid, CreateTopic, Admit, RowFrom, NewRow, MayWrite, WriteNamespace, FocusTopic, Transacts;
    RowIsNew(p.ns, p.key, p.text, p.vis, auth, Topic("", None));
    match p.topic
    case ExistingTopic(id) =>
      if MayWrite(auth) {
        QuestionInserts(st, p, id, auth);
      }
    case Focus(slug) =>
      FocusWrites(st, p.ns, p.text, slug, auth);
      var first := CreateTopic(st, FocusTopic(Home(p.ns, auth), p.text, slug), auth);
      if MayWrite(auth) && first.result.Ok? {
        QuestionInserts(first.st, p, first.result.value, auth);
      }
  }

  function ExcerptRow(p: ExcerptCreate, source: nat, topic: nat, auth: Option<Auth>): Row {
    NewRow(p.ns, p.key, p.text, p.vis, auth, Excerpt(p.question, source, p.session, topic))
  }

  /** The excerpt's own transaction, once its source is known. */
  ghost predicate ExcerptFollows(st: State, p: ExcerptCreate, source: nat, auth: Option<Auth>, o: Outcome) {
    && (forall topic :: TakesTopic(st.rows, p.topic, p.question, topic) ==>
          Writes(st, auth, ExcerptRow(p, source, topic, auth), o))
    && ((!exists topic :: TakesTopic(st.rows, p.topic, p.question, topic)) ==> o.result.Err? && o.st == st)
  }

  lemma ExcerptInserts(st: State, p: ExcerptCreate, source: nat, auth: Option<Auth>)
    requires Valid(st) && MayWrite(auth)
    ensures var topic := TopicOrQuestions(st.rows, p.topic, p.question);
            ExcerptFollows(st, p, source, auth,
                           if topic.Err? then Outcome(st, Err(topic.message))
                           else Admit(st, RowFrom(Home(p.ns, auth), p.key, p.text, p.vis, auth,
                                                  Excerpt(p.question, source, p.session, topic.value)), p.key))
  {
    hide Valid, Admit, Transacts, RowFrom, NewRow, MayWrite, TopicOrQuestions, TakesTopic;
    TopicTaken(st.rows, p.topic, p.question);
    var topic := TopicOrQuestions(st.rows, p.topic, p.question);
    if topic.Ok? {
      var body := Excerpt(p.question, source, p.session, topic.value);
      RowIsNew(p.ns, p.key, p.text, p.vis, auth, body);
      RowKey(Home(p.ns, auth), p.key, p.text, p.vis, auth, body);
      AdmitTransacts(st, NewRow(p.ns, p.key, p.text, p.vis, auth, body), p.key);
    }
  }

  /** An excerpt of a source that is named is one transaction; otherwise the source's comes first. */
  lemma ExcerptWrites(st: State, p: ExcerptCreate, auth: Option<Auth>)
    requires Valid(st)
    ensures var o := CreateExcerpt(st, p, auth);
            if !MayWrite(auth) then o.result.Err? && o.st == st
            else
              match p.source
              case ExistingSource(id) => ExcerptFollows(st, p, id, auth, o)
              case NewSource(source) =>
                exists first: Outcome ::
                  && Writes(st, auth, NewRow(p.ns, source.key, source.text, source.vis, auth, SourceColumns(source)),
                            first)
                  && if first.result.Err? then o.result.Err? && o.st == first.st
                     else ExcerptFollows(first.st, p, first.result.value, auth, o)
  {
    hide Valid, CreateSource, Admit, RowFrom, MayWrite, WriteNamespace, Transacts, TopicOrQuestions,
         ExcerptFollows, Writes;
    RowIsNew(p.ns, p.key, p.text, p.vis, auth, Topic("", None));
    if MayWrite(auth) {
      match p.source
      case ExistingSource(id) => ExcerptInserts(st, p, id, auth);
      case NewSource(source) =>
        var there := source.(ns := Home(p.ns, auth));
        SourceWrites(st, there, auth);
        CreateSourceKeeps(st, there, auth);
        assert Home(Home(p.ns, auth), auth) == Home(p.ns, auth);
        var first := CreateSource(st, there, auth);
        if first.result.Ok? {
          ExcerptInserts(first.st, p, first.result.value, auth);
        }
    }
  }

  // ---------------------------------------------------------------- the topic of a focus

  /** Within a namespace, different slugs are looked up under different keys. */
  lemma FocusKeyTellsSlug(ns: Namespace, text: string, a: string, b: string, auth: Option<Auth>)
    requires FocusRow(ns, text, a, auth).key == FocusRow(ns, text, b, auth).key
    ensures a == b
  {
    var home := Home(ns, auth);
    var head := "topic:" + (match home.kind case User => "user" case Org => "org") + ":" + home.id + ":";
    var x, y := head + a, head + b;
    assert x[0] == 't' && y[0] == 't' && Prefix(home)[0] == 'n';
    assert FocusRow(ns, text, a, auth).key == Scoped(Some(x), home);
    assert FocusRow(ns, text, b, auth).key == Scoped(Some(y), home);
    hide NewRow, Scoped, Prefix;
    ScopingIsInjective(x, y, home);
    assert x[|head|..] == a && y[|head|..] == b;
  }

  /** The topic found or made for a focus has its slug exactly if no topic of another slug carries the focus's key. */
  lemma FocusTopicHasSlugIff(st: State, ns: Namespace, text: string, slug: string, auth: Option<Auth>, first: Outcome)
    requires Valid(st) && MayWrite(auth) && Writes(st, auth, FocusRow(ns, text, slug, auth), first)
    ensures first.result.Ok? && Ref(Topics, first.result.value) in first.st.rows
    ensures var topic := first.st.rows[Ref(Topics, first.result.value)].body;
            topic.Topic? && (topic.slug == slug <==>
              forall id :: Carries(st.rows, Topics, Home(ns, auth), FocusRow(ns, text, slug, auth).key, id) ==>
                             st.rows[Ref(Topics, id)].body == Topic(slug, st.rows[Ref(Topics, id)].body.parent))
  {
    var row := FocusRow(ns, text, slug, auth);
    assert row.body == Topic(slug, None) && row.ns == Home(ns, auth);
    hide NewRow, FocusRow, Scoped;
    TopicsAreTopics(st);
    hide Valid;
    forall id, other | Carries(st.rows, Topics, row.ns, row.key, id) && Carries(st.rows, Topics, row.ns, row.key, other)
      ensures id == other
    {
      OneCarrier(st, Topics, row.ns, row.key, id, other);
    }
  }

  lemma TopicsAreTopics(st: State)
    requires Valid(st)
    ensures forall id :: Ref(Topics, id) in st.rows ==> st.rows[Ref(Topics, id)].body.Topic?
  {
  }

  lemma OneCarrier(st: State, table: Table, ns: Namespace, key: Option<string>, id: nat, other: nat)
    requires Valid(st) && Carries(st.rows, table, ns, key, id) && Carries(st.rows, table, ns, key, other)
    ensures id == other
  {
  }
}
