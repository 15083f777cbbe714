/** `RegistryService` of src/research_registry/service.py: the tables as fields, every public operation as a method. */
module RegistryServices {
  import opened PyText
  import opened ScopedKeys
  import opened RegistryStore
  import opened RegistryLaws
  import opened PublishGraph

  class RegistryService {
    var rows: Rows
    var nextId: nat

    ghost function Tables(): State
      reads this
    {
      State(rows, nextId)
    }

    ghost predicate Consistent()
      reads this
    {
      Valid(Tables())
    }

    constructor ()
      ensures Tables() == EMPTY && Consistent()
    {
      rows, nextId := map[], 0;
    }

    // -------------------------------------------------------------- one check-then-insert transaction

    method FetchExistingByDedupeKey(table: Table, raw: Option<string>, ns: Namespace) returns (existing: Option<nat>)
      requires Consistent()
      ensures existing == FindByKey(rows, table, raw, ns)
    {
      var scoped := Scoped(raw, ns);
      if scoped == None {
        return None;
      }
      existing := None;
      if exists r :: r in rows && r.table == table && HasKey(rows, table, ns, scoped.value, r.id) {
        var r :| r in rows && r.table == table && HasKey(rows, table, ns, scoped.value, r.id);
        existing := Some(r.id);
        FindByKeyFindsTheHolder(Tables(), table, raw, ns, r.id);
      } else {
        forall id: nat ensures FindByKey(rows, table, raw, ns) != Some(id) {
          FindByKeyFindsTheHolder(Tables(), table, raw, ns, id);
          assert Ref(table, id).table == table && Ref(table, id).id == id;
        }
      }
    }

    method FetchExistingByContent(table: Table, ns: Namespace, natural: NaturalKey) returns (existing: Option<nat>)
      requires Consistent()
      ensures existing == FindByNatural(rows, table, ns, natural)
    {
      existing := None;
      if exists r :: r in rows && r.table == table && HasNatural(rows, table, ns, natural, r.id) {
        var r :| r in rows && r.table == table && HasNatural(rows, table, ns, natural, r.id);
        existing := Some(r.id);
        FindByNaturalFindsTheHolder(Tables(), table, ns, natural, r.id);
      } else {
        forall id: nat ensures FindByNatural(rows, table, ns, natural) != Some(id) {
          FindByNaturalFindsTheHolder(Tables(), table, ns, natural, id);
          assert Ref(table, id).table == table && Ref(table, id).id == id;
        }
      }
    }

    /** The check every mutation makes, one reference at a time. */
    method RequireMutationRelationships(references: seq<Reference>, ns: Namespace) returns (ok: bool)
      ensures ok <==> RelationshipsHold(rows, references, ns)
    {
      for i := 0 to |references|
        invariant RelationshipsHold(rows, references[..i], ns)
      {
        if !Present(rows, references[i], ns) {
          return false;
        }
      }
      assert references[..|references|] == references;
      ok := true;
    }

    method CheckThenInsert(row: Row, raw: Option<string>) returns (result: Result<nat>)
      requires Consistent() && row.key == Scoped(raw, row.ns)
      modifies this
      ensures Outcome(Tables(), result) == Admit(old(Tables()), row, raw)
      ensures Consistent()
    {
      AdmitKeeps(Tables(), row, raw);
      AdmitRefusesExactly(Tables(), row, raw);
      var table := TableOf(row.body);
      var allowed := RequireMutationRelationships(References(row.body), row.ns);
      if !allowed {
        return Err(UNAVAILABLE);
      }
      var existing := FetchExistingByDedupeKey(table, raw, row.ns);
      if existing.Some? {
        return Ok(existing.value);
      }
      existing := FetchExistingByContent(table, row.ns, Natural(row.body));
      if existing.Some? {
        return Ok(existing.value);
      }
      if !LinksAreDistinct(row.body) {
        return Err(CONSTRAINT);
      }
      var id := nextId;
      nextId := nextId + 1;
      rows := rows[Ref(table, id) := row];
      result := Ok(id);
    }

    // -------------------------------------------------------------- the create operations

    method AddTopic(p: TopicCreate, auth: Option<Auth>) returns (result: Result<nat>)
      requires Consistent()
      modifies this
      ensures Outcome(Tables(), result) == CreateTopic(old(Tables()), p, auth)
      ensures Consistent()
    {
      var ns := WriteNamespace(p.ns, auth);
      if ns.Err? {
        return Err(ns.message);
      }
      var row := RowFrom(ns.value, p.key, p.text, Private, auth, Topic(p.slug, p.parent));
      result := CheckThenInsert(row, p.key);
    }

    method AddQuestion(p: QuestionCreate, auth: Option<Auth>) returns (result: Result<nat>)
      requires Consistent()
      modifies this
      ensures Outcome(Tables(), result) == CreateQuestion(old(Tables()), p, auth)
      ensures Consistent()
    {
      var ns := WriteNamespace(p.ns, auth);
      if ns.Err? {
        return Err(ns.message);
      }
      var topic: Result<nat>;
      match p.topic {
        case Focus(slug) => topic := AddTopic(FocusTopic(ns.value, p.text, slug), auth);
        case ExistingTopic(id) => topic := Ok(id);
      }
      if topic.Err? {
        return topic;
      }
      var body := Question(topic.value, p.prompt, p.status, p.parent, p.generatedBy);
      result := CheckThenInsert(RowFrom(ns.value, p.key, p.text, p.vis, auth, body), p.key);
    }

    method AddSession(p: SessionCreate, auth: Option<Auth>) returns (result: Result<nat>)
      requires Consistent()
      modifies this
      ensures Outcome(Tables(), result) == CreateSession(old(Tables()), p, auth)
      ensures Consistent()
    {
      var ns := WriteNamespace(p.ns, auth);
      if ns.Err? {
        return Err(ns.message);
      }
      result := CheckThenInsert(RowFrom(ns.value, p.key, p.text, p.vis, auth, Session(p.question, p.refreshOf)), p.key);
    }

    method AddSource(p: SourceCreate, auth: Option<Auth>) returns (result: Result<nat>)
      requires Consistent()
      modifies this
      ensures Outcome(Tables(), result) == CreateSource(old(Tables()), p, auth)
      ensures Consistent()
    {
      var ns := WriteNamespace(p.ns, auth);
      if ns.Err? {
        return Err(ns.message);
      }
      var hash := if p.hash.Some? then p.hash.value else "";
      var body := Source(p.locator, hash, p.snapshotRequired, p.snapshotPresent);
      result := CheckThenInsert(RowFrom(ns.value, p.key, p.text, p.vis, auth, body), p.key);
    }

    method AddExcerpt(p: ExcerptCreate, auth: Option<Auth>) returns (result: Result<nat>)
      requires Consistent()
      modifies this
      ensures Outcome(Tables(), result) == CreateExcerpt(old(Tables()), p, auth)
      ensures Consistent()
    {
      var ns := WriteNamespace(p.ns, auth);
      if ns.Err? {
        return Err(ns.message);
      }
      var source: Result<nat>;
      match p.source {
        case NewSource(payload) => source := AddSource(payload.(ns := ns.value), auth);
        case ExistingSource(id) => source := Ok(id);
      }
      if source.Err? {
        return source;
      }
      var topic := TopicOrQuestions(rows, p.topic, p.question);
      if topic.Err? {
        return topic;
      }
      var body := Excerpt(p.question, source.value, p.session, topic.value);
      result := CheckThenInsert(RowFrom(ns.value, p.key, p.text, p.vis, auth, body), p.key);
    }

    method AddClaim(p: ClaimCreate, auth: Option<Auth>) returns (result: Result<nat>)
      requires Consistent()
      modifies this
      ensures Outcome(Tables(), result) == CreateClaim(old(Tables()), p, auth)
      ensures Consistent()
    {
      var ns := WriteNamespace(p.ns, auth);
      if ns.Err? {
        return Err(ns.message);
      }
      var topic := TopicOrQuestions(rows, p.topic, p.question);
      if topic.Err? {
        return topic;
      }
      var body := Claim(p.question, p.session, topic.value, p.excerpts);
      result := CheckThenInsert(RowFrom(ns.value, p.key, p.text, p.vis, auth, body), p.key);
    }

    method SetQuestionStatus(question: nat, status: Status)
      requires Consistent()
      modifies this`rows
      ensures rows == SetStatus(old(rows), question, status)
      ensures Consistent()
    {
      StatusKeeps(Tables(), question, status);
      var q := Ref(Questions, question);
      if q in rows && rows[q].body.Question? {
        rows := rows[q := rows[q].(body := rows[q].body.(status := status))];
      }
    }

    /** A stored report answers its question, in a transaction of its own; a report that was there already does not. */
    method AddReport(p: ReportCreate, auth: Option<Auth>) returns (result: Result<nat>)
      requires Consistent()
      modifies this
      ensures Outcome(Tables(), result) == CreateReport(old(Tables()), p, auth)
      ensures Consistent()
    {
      var ns := WriteNamespace(p.ns, auth);
      if ns.Err? {
        return Err(ns.message);
      }
      var before := nextId;
      var body := Report(p.question, p.session, p.refreshOf, p.claims);
      result := CheckThenInsert(RowFrom(ns.value, p.key, p.text, p.vis, auth, body), p.key);
      if nextId != before {
        SetQuestionStatus(p.question, Answered);
      }
    }

    // -------------------------------------------------------------- publication

    /** The worklist: exactly the records reachable from the root, whatever order they are met in. */
    method CollectPublishGraph(root: Ref) returns (graph: set<Ref>)
      ensures graph == Reach(rows, root)
    {
      graph := {};
      var pending := [root];
      ReachUnfolds(rows, root, root);
      while pending != []
        invariant graph <= Reach(rows, root)
        invariant forall n :: n in pending ==> n in Reach(rows, root)
        invariant root in graph || root in pending
        invariant forall n, c :: n in graph && c in Children(rows, n) ==> c in graph || c in pending
        decreases Reach(rows, root) - graph, |pending|
      {
        var node := pending[|pending| - 1];
        ghost var before := pending;
        pending := pending[..|pending| - 1];
        assert forall n :: n in before ==> n == node || n in pending;
        if node !in graph {
          forall c | c in Children(rows, node) ensures c in Reach(rows, root) {
            ReachIsClosed(rows, root, node, c);
          }
          graph := graph + {node};
          pending := pending + Children(rows, node);
        }
      }
      ClosedSetHoldsReach(rows, root, graph);
    }

    method SetPublic(node: Ref, index: IndexState)
      requires node in rows
      modifies this`rows
      ensures rows == Mark(old(rows), {node}, index)
    {
      rows := rows[node := Publicize(rows[node], index)];
    }

    /** The separately written cascade: everything reachable from the root but the root itself. */
    method CascadePublish(root: Ref, index: IndexState)
      requires GraphIsStored(rows, root)
      modifies this`rows
      ensures rows == Mark(old(rows), Reach(old(rows), root) - {root}, index)
      decreases Rank(root.table), 1
    {
      hide Reach, ReachAll, Mark, GraphIsStored, AllStored;
      ghost var start := rows;
      LinksAreStored(rows, root);
      DescendantsAreTheRest(rows, root);
      match rows[root].body {
        case Excerpt(question, source, _, _) =>
          SetPublic(Ref(Sources, source), index);
          MarkKeepsRows(start, {Ref(Sources, source)}, index);
          SetPublic(Ref(Questions, question), index);
          MarkTwice(start, {Ref(Sources, source)}, {Ref(Questions, question)}, index);
          assert {Ref(Sources, source)} + {Ref(Questions, question)}
              == {Ref(Sources, source), Ref(Questions, question)};
        case Claim(question, _, _, excerpts) =>
          SetPublic(Ref(Questions, question), index);
          MarkKeepsGraph(start, {Ref(Questions, question)}, index, Excerpts, excerpts);
          PublishLinked(Excerpts, excerpts, index);
          MarkTwice(start, {Ref(Questions, question)}, ReachAll(start, Refs(Excerpts, excerpts), 2), index);
        case Report(question, _, _, claims) =>
          SetPublic(Ref(Questions, question), index);
          MarkKeepsGraph(start, {Ref(Questions, question)}, index, Claims, claims);
          PublishLinked(Claims, claims, index);
          MarkTwice(start, {Ref(Questions, question)}, ReachAll(start, Refs(Claims, claims), 3), index);
        case _ =>
          MarkNothing(rows, index);
      }
    }

    /** Each linked record is made public and then cascaded from. */
    method PublishLinked(table: Table, ids: seq<nat>, index: IndexState)
      requires AllStored(rows, table, ids)
      modifies this`rows
      ensures rows == Mark(old(rows), ReachAll(old(rows), Refs(table, ids), Rank(table) + 1), index)
      decreases Rank(table), 2
    {
      hide Reach, ReachAll, Mark, GraphIsStored;
      ghost var start, nodes := rows, Refs(table, ids);
      MarkNothing(rows, index);
      ReachNothing(rows, Rank(table) + 1);
      for i := 0 to |ids|
        invariant rows == Mark(start, ReachAll(start, nodes[..i], Rank(table) + 1), index)
      {
        ghost var done := ReachAll(start, nodes[..i], Rank(table) + 1);
        var node := Ref(table, ids[i]);
        PartlyMarked(start, done, index, node);
        SetPublic(node, index);
        MarkTwice(start, done, {node}, index);
        PartlyMarked(start, done + {node}, index, node);
        CascadePublish(node, index);
        MarkTwice(start, done + {node}, Reach(start, node) - {node}, index);
        OneMore(start, nodes, i, Rank(table) + 1);
        RootIsReached(start, node);
        assert done + {node} + (Reach(start, node) - {node}) == done + Reach(start, node);
      }
      assert nodes[..|ids|] == nodes;
    }

    /** The checks of a publication; on success the graph they covered. */
    method CheckPublication(p: PublishRequest, auth: Option<Auth>, native: set<Ref>) returns (graph: Result<set<Ref>>)
      ensures var outcome := PublishRows(rows, p, auth, native);
              if outcome.Ok? then graph == Ok(Reach(rows, p.root)) else graph == Err(outcome.message)
    {
      hide Reach, Mark;
      if auth.Some? && !HasScope(auth.value, Publish) {
        return Err("publish scope required");
      }
      if p.root !in rows {
        return Err("record is not available for this mutation");
      }
      var ns := PublishNamespace(rows, p, auth);
      var collected := CollectPublishGraph(p.root);
      if ns.Err? {
        return Err(ns.message);
      }
      if exists n :: n in collected && !InNamespace(rows, n, ns.value) {
        return Err(UNAVAILABLE);
      }
      if !(collected !! native) {
        return Err("native v2 publication is disabled for this alpha");
      }
      if exists n :: n in collected && n in rows && LacksSnapshot(rows[n].body) {
        return Err("linked source requires a snapshot before publishing");
      }
      graph := Ok(collected);
    }

    /** The writes of a publication that was checked. */
    method WritePublication(p: PublishRequest)
      requires GraphIsStored(rows, p.root)
      modifies this`rows
      ensures var graph := if p.cascade then Reach(old(rows), p.root) else {p.root};
              rows == Mark(old(rows), graph, IndexFor(Public, p.includeInGlobalIndex))
    {
      hide Reach, Mark, GraphIsStored, IndexFor;
      ghost var start, graph := rows, Reach(rows, p.root);
      var index := IndexFor(Public, p.includeInGlobalIndex);
      LinksAreStored(rows, p.root);
      SetPublic(p.root, index);
      if p.cascade {
        PartlyMarked(start, {p.root}, index, p.root);
        RootIsReached(start, p.root);
        CascadePublish(p.root, index);
        MarkTwice(start, {p.root}, graph - {p.root}, index);
        assert {p.root} + (graph - {p.root}) == graph;
      }
    }

    /** All checks come before the first write, and cover every row that is written. */
    method PublishRecord(p: PublishRequest, auth: Option<Auth>, native: set<Ref>) returns (result: Result<nat>)
      requires Consistent()
      modifies this`rows
      ensures var outcome := PublishRows(old(rows), p, auth, native);
              if outcome.Ok? then result == Ok(p.root.id) && rows == outcome.value
              else result == Err(outcome.message) && rows == old(rows)
    {
      hide Reach, Mark, PublishRows, Valid, GraphIsStored;
      var graph := CheckPublication(p, auth, native);
      if graph.Err? {
        return Err(graph.message);
      }
      PublishedIsStored(Tables(), p, auth, native);
      WritePublication(p);
      result := Ok(p.root.id);
    }
  }

  /** What the checks of a publication leave for its writes: the graph is stored, and this is what they make of it. */
  lemma PublishedIsStored(st: State, p: PublishRequest, auth: Option<Auth>, native: set<Ref>)
    requires Valid(st) && PublishRows(st.rows, p, auth, native).Ok?
    ensures GraphIsStored(st.rows, p.root)
    ensures var graph := if p.cascade then Reach(st.rows, p.root) else {p.root};
            PublishRows(st.rows, p, auth, native).value
                == Mark(st.rows, graph, IndexFor(Public, p.includeInGlobalIndex))
  {
    hide Reach, Mark;
    var ns := PublishNamespace(st.rows, p, auth).value;
    assert forall n :: n in Reach(st.rows, p.root) ==> InNamespace(st.rows, n, ns);
  }
}
