/** Safety of the registry over whole runs of creates, status changes and publications. */
module RegistryRuns {
  import opened PyText
  import opened ScopedKeys
  import opened RegistryStore
  import opened RegistryLaws
  import opened PublishGraph

  datatype Op =
    | AddTopic(topic: TopicCreate, auth: Option<Auth>)
    | AddQuestion(question: QuestionCreate, auth: Option<Auth>)
    | AddSession(session: SessionCreate, auth: Option<Auth>)
    | AddSource(source: SourceCreate, auth: Option<Auth>)
    | AddExcerpt(excerpt: ExcerptCreate, auth: Option<Auth>)
    | AddClaim(claim: ClaimCreate, auth: Option<Auth>)
    | AddReport(report: ReportCreate, auth: Option<Auth>)
    | PutStatus(id: nat, status: Status)
    | PublishOp(request: PublishRequest, auth: Option<Auth>, native: set<Ref>)

  ghost function Apply(st: State, op: Op): State {
    match op
    case AddTopic(p, auth) => CreateTopic(st, p, auth).st
    case AddQuestion(p, auth) => CreateQuestion(st, p, auth).st
    case AddSession(p, auth) => CreateSession(st, p, auth).st
    case AddSource(p, auth) => CreateSource(st, p, auth).st
    case AddExcerpt(p, auth) => CreateExcerpt(st, p, auth).st
    case AddClaim(p, auth) => CreateClaim(st, p, auth).st
    case AddReport(p, auth) => CreateReport(st, p, auth).st
    case PutStatus(id, status) => st.(rows := SetStatus(st.rows, id, status))
    case PublishOp(p, auth, native) =>
      var published := PublishRows(st.rows, p, auth, native);
      if published.Ok? then st.(rows := published.value) else st
  }

  ghost function Run(st: State, ops: seq<Op>): State
    decreases |ops|
  {
    if ops == [] then st else Run(Apply(st, ops[0]), ops[1..])
  }

  // ---------------------------------------------------------------- every run, whoever calls

  lemma {:induction false} PublishKeeps(st: State, p: PublishRequest, auth: Option<Auth>, native: set<Ref>)
    requires Valid(st)
    ensures var after := Apply(st, PublishOp(p, auth, native)); Valid(after) && Extends(st.rows, after.rows)
  {
    hide Reach, Valid, Mark, Extends;
    var published := PublishRows(st.rows, p, auth, native);
    if published.Ok? {
      MarkIsCosmetic(st.rows, if p.cascade then Reach(st.rows, p.root) else {p.root},
                     IndexFor(Public, p.includeInGlobalIndex));
      CosmeticChangeKeeps(st, published.value);
    } else {
      EverythingExtendsItself(st.rows);
    }
  }

  lemma MarkIsCosmetic(rows: Rows, graph: set<Ref>, index: IndexState)
    ensures Mark(rows, graph, index).Keys == rows.Keys && Extends(rows, Mark(rows, graph, index))
  {
  }

  lemma {:induction false} ApplyKeeps(st: State, op: Op)
    requires Valid(st)
    ensures Valid(Apply(st, op)) && Extends(st.rows, Apply(st, op).rows)
  {
    hide Valid, Extends, CreateTopic, CreateQuestion, CreateSession, CreateSource, CreateExcerpt, CreateClaim,
        CreateReport;
    match op
    case AddTopic(p, auth) => CreateTopicKeeps(st, p, auth);
    case AddQuestion(p, auth) => CreateQuestionKeeps(st, p, auth);
    case AddSession(p, auth) => CreateSessionKeeps(st, p, auth);
    case AddSource(p, auth) => CreateSourceKeeps(st, p, auth);
    case AddExcerpt(p, auth) => CreateExcerptKeeps(st, p, auth);
    case AddClaim(p, auth) => CreateClaimKeeps(st, p, auth);
    case AddReport(p, auth) => CreateReportKeeps(st, p, auth);
    case PutStatus(id, status) => StatusKeeps(st, id, status);
    case PublishOp(p, auth, native) => PublishKeeps(st, p, auth, native);
  }

  /**
   * In every state any run reaches: references join rows of one namespace, keys are scoped and unique, natural keys
   * are unique in their namespace; and along the run no row is lost and none becomes private again.
   */
  lemma {:induction false} RunKeeps(st: State, ops: seq<Op>)
    requires Valid(st)
    ensures Valid(Run(st, ops)) && Extends(st.rows, Run(st, ops).rows)
    decreases |ops|
  {
    if ops != [] {
      ApplyKeeps(st, ops[0]);
      RunKeeps(Apply(st, ops[0]), ops[1..]);
      ExtendsTransitive(st.rows, Apply(st, ops[0]).rows, Run(st, ops).rows);
    }
  }

  lemma EmptyIsValid()
    ensures Valid(EMPTY)
  {
  }

  /** From an empty store, no create in any run is refused by the unique constraint on keys. */
  lemma UniqueNeverFiresInRuns(ops: seq<Op>, row: Row, raw: Option<string>)
    requires row.key == Scoped(raw, row.ns)
    ensures var st := Run(EMPTY, ops);
            FindExisting(st.rows, row, raw) == None ==> !KeyTaken(st.rows, TableOf(row.body), row.key)
  {
    EmptyIsValid();
    RunKeeps(EMPTY, ops);
    var st := Run(EMPTY, ops);
    if FindExisting(st.rows, row, raw) == None {
      UniqueNeverFires(st, TableOf(row.body), raw, row.ns);
    }
  }

  // ---------------------------------------------------------------- a publication stays in its root's namespace

  /** What a publication takes along is among the references a row stores. */
  lemma PublishRefIsReference(body: Body, i: nat) returns (j: nat)
    requires i < |PublishRefs(body)|
    ensures var c := PublishRefs(body)[i];
            j < |References(body)| && References(body)[j] == Reference(c.table, Some(c.id))
  {
    if body.Excerpt? {
      j := 1 - i;
    } else if i == 0 {
      j := 0;
    } else {
      j := i + 2;
      var table, ids := if body.Claim? then Excerpts else Claims, if body.Claim? then body.excerpts else body.claims;
      assert References(body)[j] == All(table, ids)[i - 1] && PublishRefs(body)[i] == Refs(table, ids)[i - 1];
    }
  }

  lemma {:induction false} ChildrenAreReferences(st: State, node: Ref, c: Ref)
    requires Valid(st) && c in Children(st.rows, node)
    ensures node in st.rows && InNamespace(st.rows, c, st.rows[node].ns)
  {
    hide References, PublishRefs;
    var row := st.rows[node];
    var i :| 0 <= i < |PublishRefs(row.body)| && PublishRefs(row.body)[i] == c;
    var j := PublishRefIsReference(row.body, i);
    assert RelationshipsHold(st.rows, References(row.body), row.ns);
    assert Present(st.rows, References(row.body)[j], row.ns);
  }

  lemma {:induction false} GraphStaysHome(st: State, root: Ref, x: Ref)
    requires Valid(st) && root in st.rows && x in Reach(st.rows, root)
    ensures InNamespace(st.rows, x, st.rows[root].ns)
    decreases Rank(root.table)
  {
    ReachUnfolds(st.rows, root, x);
    if x != root {
      var c :| c in Children(st.rows, root) && x in Reach(st.rows, c);
      ChildrenAreReferences(st, root, c);
      GraphStaysHome(st, c, x);
    }
  }

  /** So the node-by-node namespace check of a publication fails exactly when the root's own namespace is another. */
  lemma NamespaceCheckIsTheRoots(st: State, root: Ref, ns: Namespace)
    requires Valid(st) && root in st.rows
    ensures (exists n :: n in Reach(st.rows, root) && !InNamespace(st.rows, n, ns)) <==> st.rows[root].ns != ns
  {
    RootIsReached(st.rows, root);
    forall n | n in Reach(st.rows, root) ensures InNamespace(st.rows, n, st.rows[root].ns) {
      GraphStaysHome(st, root, n);
    }
  }

  // ---------------------------------------------------------------- public records rest on public evidence

  predicate StoredPublic(rows: Rows, node: Ref) { node in rows && IsPublic(rows[node]) }

  /** What a public record takes along is public, link by link. */
  ghost predicate PublicClosed(rows: Rows) {
    forall r, c :: r in rows && IsPublic(rows[r]) && c in Children(rows, r) ==> StoredPublic(rows, c)
  }

  ghost predicate PublicSourcesHaveSnapshots(rows: Rows) {
    forall r <- rows :: IsPublic(rows[r]) ==> !LacksSnapshot(rows[r].body)
  }

  ghost predicate Trustworthy(rows: Rows) {
    PublicClosed(rows) && PublicSourcesHaveSnapshots(rows)
  }

  /** A change that makes nothing public. */
  ghost predicate Quiet(old_: Rows, new_: Rows) {
    Extends(old_, new_) && forall r <- new_ :: IsPublic(new_[r]) ==> StoredPublic(old_, r)
  }

  lemma QuietTransitive(a: Rows, b: Rows, c: Rows)
    requires Quiet(a, b) && Quiet(b, c)
    ensures Quiet(a, c)
  {
  }

  lemma ChildrenAreFixed(old_: Rows, new_: Rows, node: Ref)
    requires Extends(old_, new_) && node in old_
    ensures Children(new_, node) == Children(old_, node)
    ensures LacksSnapshot(new_[node].body) <==> LacksSnapshot(old_[node].body)
  {
  }

  lemma QuietKeepsTrust(old_: Rows, new_: Rows)
    requires Quiet(old_, new_) && Trustworthy(old_)
    ensures Trustworthy(new_)
  {
    hide Children, Fixed, LacksSnapshot;
    forall r | r in new_ && IsPublic(new_[r]) ensures !LacksSnapshot(new_[r].body) {
      ChildrenAreFixed(old_, new_, r);
    }
    forall r, c | r in new_ && IsPublic(new_[r]) && c in Children(new_, r) ensures StoredPublic(new_, c) {
      ChildrenAreFixed(old_, new_, r);
      assert StoredPublic(old_, c);
    }
  }

  lemma AdmitPrivateIsQuiet(st: State, row: Row, raw: Option<string>)
    requires Valid(st) && row.key == Scoped(raw, row.ns) && row.vis == Private
    ensures Quiet(st.rows, Admit(st, row, raw).st.rows)
  {
    hide Valid, Extends, RelationshipsHold, FindExisting, KeyTaken, LinksAreDistinct;
    AdmitKeeps(st, row, raw);
  }

  /** Authenticated creates, status changes and cascaded publications; topics carry no visibility. */
  predicate IsGoverned(op: Op) {
    match op
    case AddTopic(_, _) => true
    case PutStatus(_, _) => true
    case PublishOp(p, _, _) => p.cascade
    case _ => op.auth.Some?
  }

  lemma TopicIsQuiet(st: State, p: TopicCreate, auth: Option<Auth>)
    requires Valid(st)
    ensures Quiet(st.rows, CreateTopic(st, p, auth).st.rows)
  {
    var ns := WriteNamespace(p.ns, auth);
    if ns.Ok? {
      AdmitPrivateIsQuiet(st, RowFrom(ns.value, p.key, p.text, Private, auth, Topic(p.slug, p.parent)), p.key);
    }
  }

  lemma {:induction false} QuestionIsQuiet(st: State, p: QuestionCreate, auth: Option<Auth>)
    requires Valid(st) && auth.Some?
    ensures Quiet(st.rows, CreateQuestion(st, p, auth).st.rows)
  {
    var ns := WriteNamespace(p.ns, auth);
    if ns.Ok? {
      var topic := if p.topic.Focus? then CreateTopic(st, FocusTopic(ns.value, p.text, p.topic.slug), auth)
                   else Outcome(st, Ok(p.topic.id));
      if p.topic.Focus? {
        CreateTopicKeeps(st, FocusTopic(ns.value, p.text, p.topic.slug), auth);
        TopicIsQuiet(st, FocusTopic(ns.value, p.text, p.topic.slug), auth);
      }
      if topic.result.Ok? {
        var row := RowFrom(ns.value, p.key, p.text, p.vis, auth,
                           Question(topic.result.value, p.prompt, p.status, p.parent, p.generatedBy));
        AdmitPrivateIsQuiet(topic.st, row, p.key);
        QuietTransitive(st.rows, topic.st.rows, Admit(topic.st, row, p.key).st.rows);
      }
    }
  }

  lemma SourceIsQuiet(st: State, p: SourceCreate, auth: Option<Auth>)
    requires Valid(st) && auth.Some?
    ensures Quiet(st.rows, CreateSource(st, p, auth).st.rows)
  {
    var ns := WriteNamespace(p.ns, auth);
    if ns.Ok? {
      AdmitPrivateIsQuiet(st, RowFrom(ns.value, p.key, p.text, p.vis, auth,
                                      Source(p.locator, if p.hash.Some? then p.hash.value else "",
                                             p.snapshotRequired, p.snapshotPresent)), p.key);
    }
  }

  lemma {:induction false} ExcerptIsQuiet(st: State, p: ExcerptCreate, auth: Option<Auth>)
    requires Valid(st) && auth.Some?
    ensures Quiet(st.rows, CreateExcerpt(st, p, auth).st.rows)
  {
    var ns := WriteNamespace(p.ns, auth);
    if ns.Ok? {
      var source := if p.source.NewSource? then CreateSource(st, p.source.source.(ns := ns.value), auth)
                    else Outcome(st, Ok(p.source.id));
      if p.source.NewSource? {
        CreateSourceKeeps(st, p.source.source.(ns := ns.value), auth);
        SourceIsQuiet(st, p.source.source.(ns := ns.value), auth);
      }
      var topic := TopicOrQuestions(source.st.rows, p.topic, p.question);
      if source.result.Ok? && topic.Ok? {
        var row := RowFrom(ns.value, p.key, p.text, p.vis, auth,
                           Excerpt(p.question, source.result.value, p.session, topic.value));
        AdmitPrivateIsQuiet(source.st, row, p.key);
        QuietTransitive(st.rows, source.st.rows, Admit(source.st, row, p.key).st.rows);
      }
    }
  }

  lemma ReportIsQuiet(st: State, p: ReportCreate, auth: Option<Auth>)
    requires Valid(st) && auth.Some?
    ensures Quiet(st.rows, CreateReport(st, p, auth).st.rows)
  {
    var ns := WriteNamespace(p.ns, auth);
    if ns.Ok? {
      var row := RowFrom(ns.value, p.key, p.text, p.vis, auth, Report(p.question, p.session, p.refreshOf, p.claims));
      AdmitPrivateIsQuiet(st, row, p.key);
      InsertReportKeeps(st, p, auth);
      var inserted := InsertReport(st, p, auth);
      StatusKeeps(inserted.st, p.question, Answered);
      QuietTransitive(st.rows, inserted.st.rows, SetStatus(inserted.st.rows, p.question, Answered));
    }
  }

  /** A cascaded publication makes a whole reachable set public, and has checked every source in it. */
  lemma {:induction false} PublishKeepsTrust(st: State, p: PublishRequest, auth: Option<Auth>, native: set<Ref>)
    requires Valid(st) && Trustworthy(st.rows) && p.cascade
    ensures Trustworthy(Apply(st, PublishOp(p, auth, native)).rows)
  {
    hide Reach, Mark, Trustworthy, Children, LacksSnapshot, Valid;
    var graph, index := Reach(st.rows, p.root), IndexFor(Public, p.includeInGlobalIndex);
    if PublishRows(st.rows, p, auth, native).Ok? {
      var ns := PublishNamespace(st.rows, p, auth).value;
      assert forall n :: n in graph ==> InNamespace(st.rows, n, ns);
      assert forall n :: n in graph ==> !LacksSnapshot(st.rows[n].body);
      forall n, c | n in graph && c in Children(st.rows, n) ensures c in graph {
        ReachIsClosed(st.rows, p.root, n, c);
      }
      MarkKeepsTrust(st.rows, graph, index);
    }
  }

  /** Making a set public that is closed under links, is stored and lacks no snapshot. */
  lemma MarkKeepsTrust(rows: Rows, graph: set<Ref>, index: IndexState)
    requires Trustworthy(rows)
    requires forall n :: n in graph ==> n in rows && !LacksSnapshot(rows[n].body)
    requires forall n, c :: n in graph && c in Children(rows, n) ==> c in graph
    ensures Trustworthy(Mark(rows, graph, index))
  {
    hide Children, Fixed, LacksSnapshot;
    var marked := Mark(rows, graph, index);
    forall r | r in marked && IsPublic(marked[r]) ensures !LacksSnapshot(marked[r].body) {
      MarkKeepsLinks(rows, graph, index, r);
    }
    forall r, c | r in marked && IsPublic(marked[r]) && c in Children(marked, r) ensures StoredPublic(marked, c) {
      MarkKeepsLinks(rows, graph, index, r);
      assert r !in graph ==> StoredPublic(rows, c);
    }
  }

  lemma MarkKeepsLinks(rows: Rows, graph: set<Ref>, index: IndexState, r: Ref)
    requires r in rows
    ensures Children(Mark(rows, graph, index), r) == Children(rows, r)
    ensures LacksSnapshot(Mark(rows, graph, index)[r].body) <==> LacksSnapshot(rows[r].body)
  {
  }

  lemma {:induction false} GovernedKeepsTrust(st: State, op: Op)
    requires Valid(st) && Trustworthy(st.rows) && IsGoverned(op)
    ensures Trustworthy(Apply(st, op).rows)
  {
    if op.PublishOp? {
      PublishKeepsTrust(st, op.request, op.auth, op.native);
    } else {
      GovernedIsQuiet(st, op);
      QuietKeepsTrust(st.rows, Apply(st, op).rows);
    }
  }

  lemma SessionIsQuiet(st: State, p: SessionCreate, auth: Option<Auth>)
    requires Valid(st) && auth.Some?
    ensures Quiet(st.rows, CreateSession(st, p, auth).st.rows)
  {
    hide Valid, Admit;
    NothingIsQuiet(st.rows);
    hide Quiet;
    var ns := WriteNamespace(p.ns, auth);
    if ns.Ok? {
      AdmitPrivateIsQuiet(st, RowFrom(ns.value, p.key, p.text, p.vis, auth, Session(p.question, p.refreshOf)), p.key);
    }
  }

  lemma ClaimIsQuiet(st: State, p: ClaimCreate, auth: Option<Auth>)
    requires Valid(st) && auth.Some?
    ensures Quiet(st.rows, CreateClaim(st, p, auth).st.rows)
  {
    hide Valid, Admit;
    NothingIsQuiet(st.rows);
    hide Quiet;
    var ns := WriteNamespace(p.ns, auth);
    var topic := TopicOrQuestions(st.rows, p.topic, p.question);
    if ns.Ok? && topic.Ok? {
      AdmitPrivateIsQuiet(st, RowFrom(ns.value, p.key, p.text, p.vis, auth,
                                      Claim(p.question, p.session, topic.value, p.excerpts)), p.key);
    }
  }

  lemma StatusIsQuiet(st: State, id: nat, status: Status)
    requires Valid(st)
    ensures Quiet(st.rows, SetStatus(st.rows, id, status))
  {
    StatusKeeps(st, id, status);
  }

  lemma NothingIsQuiet(rows: Rows)
    ensures Quiet(rows, rows)
  {
  }

  lemma GovernedIsQuiet(st: State, op: Op)
    requires Valid(st) && IsGoverned(op) && !op.PublishOp?
    ensures Quiet(st.rows, Apply(st, op).rows)
  {
    hide Valid, Quiet, CreateTopic, CreateQuestion, CreateSession, CreateSource, CreateExcerpt, CreateClaim,
         CreateReport, SetStatus;
    match op
    case AddTopic(p, auth) => TopicIsQuiet(st, p, auth);
    case AddQuestion(p, auth) => QuestionIsQuiet(st, p, auth);
    case AddSession(p, auth) => SessionIsQuiet(st, p, auth);
    case AddSource(p, auth) => SourceIsQuiet(st, p, auth);
    case AddExcerpt(p, auth) => ExcerptIsQuiet(st, p, auth);
    case AddClaim(p, auth) => ClaimIsQuiet(st, p, auth);
    case AddReport(p, auth) => ReportIsQuiet(st, p, auth);
    case PutStatus(id, status) => StatusIsQuiet(st, id, status);
  }

  lemma {:induction false} RunKeepsTrust(st: State, ops: seq<Op>)
    requires Valid(st) && Trustworthy(st.rows) && forall i :: 0 <= i < |ops| ==> IsGoverned(ops[i])
    ensures Trustworthy(Run(st, ops).rows)
    decreases |ops|
  {
    if ops != [] {
      ApplyKeeps(st, ops[0]);
      GovernedKeepsTrust(st, ops[0]);
      RunKeepsTrust(Apply(st, ops[0]), ops[1..]);
    }
  }

  lemma {:induction false} TrustReachesEverything(rows: Rows, r: Ref, x: Ref)
    requires Trustworthy(rows) && StoredPublic(rows, r) && x in Reach(rows, r)
    ensures StoredPublic(rows, x) && !LacksSnapshot(rows[x].body)
    decreases Rank(r.table)
  {
    ReachUnfolds(rows, r, x);
    if x != r {
      var c :| c in Children(rows, r) && x in Reach(rows, c);
      TrustReachesEverything(rows, c, x);
    }
  }

  /**
   * Over every run of authenticated creates and cascaded publications from an empty store, whatever a public record
   * rests on is stored, public, and snapshotted where a snapshot is required.
   */
  lemma PublicRecordsRestOnPublicEvidence(ops: seq<Op>, r: Ref, x: Ref)
    requires forall i :: 0 <= i < |ops| ==> IsGoverned(ops[i])
    ensures var rows := Run(EMPTY, ops).rows;
            StoredPublic(rows, r) && x in Reach(rows, r) ==> StoredPublic(rows, x) && !LacksSnapshot(rows[x].body)
  {
    EmptyIsValid();
    RunKeepsTrust(EMPTY, ops);
    var rows := Run(EMPTY, ops).rows;
    if StoredPublic(rows, r) && x in Reach(rows, r) {
      TrustReachesEverything(rows, r, x);
    }
  }

  // ---------------------------------------------------------------- where the invariant ends

  /** The checks of a publication that succeeds have covered its root. */
  lemma PublishedRoot(st: State, p: PublishRequest, auth: Option<Auth>, native: set<Ref>)
    requires PublishRows(st.rows, p, auth, native).Ok? && !p.cascade
    ensures p.root in st.rows && !LacksSnapshot(st.rows[p.root].body)
    ensures Apply(st, PublishOp(p, auth, native)).rows
        == Mark(st.rows, {p.root}, IndexFor(Public, p.includeInGlobalIndex))
  {
    hide Reach, Mark, LacksSnapshot, HasScope;
    RootIsReached(st.rows, p.root);
  }

  /**
   * A publication that does not cascade keeps public evidence public exactly when the root's links are public already.
   */
  lemma {:induction false} UncascadedPublishKeepsTrustIff(st: State, p: PublishRequest, auth: Option<Auth>,
      native: set<Ref>)
    requires Valid(st) && Trustworthy(st.rows) && !p.cascade
    requires PublishRows(st.rows, p, auth, native).Ok?
    ensures Trustworthy(Apply(st, PublishOp(p, auth, native)).rows)
       <==> forall c :: c in Children(st.rows, p.root) ==> StoredPublic(st.rows, c)
  {
    hide Valid, PublishRows, Apply, Mark, Trustworthy, Children, StoredPublic;
    PublishedRoot(st, p, auth, native);
    MarkOneKeepsTrustIff(st.rows, p.root, IndexFor(Public, p.includeInGlobalIndex));
  }

  lemma MarkOneKeepsTrustIff(rows: Rows, root: Ref, index: IndexState)
    requires Trustworthy(rows) && root in rows && !LacksSnapshot(rows[root].body)
    ensures Trustworthy(Mark(rows, {root}, index)) <==> forall c :: c in Children(rows, root) ==> StoredPublic(rows, c)
  {
    hide Children, Fixed, LacksSnapshot;
    var marked := Mark(rows, {root}, index);
    MarkKeepsLinks(rows, {root}, index, root);
    forall c | c in Children(rows, root) ensures StoredPublic(marked, c) <==> StoredPublic(rows, c) {
      assert c != root by { LinksDescend(rows, root, c); }
    }
    forall r | r in marked && IsPublic(marked[r]) ensures !LacksSnapshot(marked[r].body) {
      MarkKeepsLinks(rows, {root}, index, r);
    }
    if forall c :: c in Children(rows, root) ==> StoredPublic(rows, c) {
      forall r, c | r in marked && IsPublic(marked[r]) && c in Children(marked, r) ensures StoredPublic(marked, c) {
        MarkKeepsLinks(rows, {root}, index, r);
        assert StoredPublic(rows, c);
      }
    } else {
      assert StoredPublic(marked, root);
    }
  }

  lemma LinksDescend(rows: Rows, node: Ref, c: Ref)
    requires c in Children(rows, node)
    ensures c != node
  {
  }

  /** Inserting a row keeps public evidence public exactly when the row is private or all it takes along is public. */
  lemma InsertKeepsTrustIff(st: State, row: Row, raw: Option<string>)
    requires Valid(st) && Trustworthy(st.rows) && row.key == Scoped(raw, row.ns)
    requires Admit(st, row, raw).result.Ok? && Admit(st, row, raw).st != st
    ensures Trustworthy(Admit(st, row, raw).st.rows)
       <==> row.vis == Private
            || (!LacksSnapshot(row.body) && forall c :: c in PublishRefs(row.body) ==> StoredPublic(st.rows, c))
  {
    InsertKeepsValid(st, row, raw);
    InsertedKeepsTrustIff(st.rows, Ref(TableOf(row.body), st.nextId), row);
  }

  lemma InsertedKeepsTrustIff(rows: Rows, r: Ref, row: Row)
    requires Trustworthy(rows) && r !in rows && TableOf(row.body) == r.table
    ensures Trustworthy(rows[r := row])
       <==> row.vis == Private
            || (!LacksSnapshot(row.body) && forall c :: c in PublishRefs(row.body) ==> StoredPublic(rows, c))
  {
    var new_ := rows[r := row];
    assert Children(new_, r) == PublishRefs(row.body);
    assert forall s :: s in rows ==> Children(new_, s) == Children(rows, s);
    assert forall c :: c in PublishRefs(row.body) ==> Rank(c.table) < Rank(r.table);
    hide Children, PublishRefs, LacksSnapshot;
    assert forall c :: c in PublishRefs(row.body) ==> (StoredPublic(new_, c) <==> StoredPublic(rows, c));
    if row.vis == Private ||
       (!LacksSnapshot(row.body) && forall c :: c in PublishRefs(row.body) ==> StoredPublic(rows, c)) {
      forall s, c | s in new_ && IsPublic(new_[s]) && c in Children(new_, s) ensures StoredPublic(new_, c) {
        assert StoredPublic(rows, c);
      }
    } else {
      assert StoredPublic(new_, r);
    }
  }
}
