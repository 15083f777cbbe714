/** What the registry's create operations keep, over every state they can be called in. */
module RegistryLaws {
  import opened PyText
  import opened ScopedKeys
  import opened RegistryStore

  // ---------------------------------------------------------------- lookups are determined

  /** All stored keys are scoped, so a key as given is found only where it is its own scoped form. */
  lemma KeyAsGivenIsScoped(st: State, table: Table, ns: Namespace, raw: string, id: nat)
    requires Valid(st) && raw != "" && HasKey(st.rows, table, ns, raw, id)
    ensures Scoped(Some(raw), ns) == Some(raw)
  {
  }

  lemma KeyHolderIsUnique(st: State, table: Table, ns: Namespace, key: string, a: nat, b: nat)
    requires Valid(st) && HasKey(st.rows, table, ns, key, a) && HasKey(st.rows, table, ns, key, b)
    ensures a == b
  {
  }

  /** A key lookup finds the one row that holds the scoped key, and finds nothing exactly when there is none. */
  lemma FindByKeyFindsTheHolder(st: State, table: Table, raw: Option<string>, ns: Namespace, id: nat)
    requires Valid(st)
    ensures FindByKey(st.rows, table, raw, ns) == Some(id)
       <==> Scoped(raw, ns).Some? && HasKey(st.rows, table, ns, Scoped(raw, ns).value, id)
  {
    var scoped := Scoped(raw, ns);
    var found := FindByKey(st.rows, table, raw, ns);
    if scoped.Some? {
      forall k | HasKey(st.rows, table, ns, raw.value, k) ensures scoped == raw {
        KeyAsGivenIsScoped(st, table, ns, raw.value, k);
      }
      if HasKey(st.rows, table, ns, scoped.value, id) {
        KeyHolderIsUnique(st, table, ns, scoped.value, id, found.value);
      }
    }
  }

  lemma FindByNaturalFindsTheHolder(st: State, table: Table, ns: Namespace, natural: NaturalKey, id: nat)
    requires Valid(st)
    ensures FindByNatural(st.rows, table, ns, natural) == Some(id) <==> HasNatural(st.rows, table, ns, natural, id)
  {
  }

  // ---------------------------------------------------------------- one transaction

  /** The unique constraint on keys never fires: it spans all namespaces, the check before the insert only one. */
  lemma UniqueNeverFires(st: State, table: Table, raw: Option<string>, ns: Namespace)
    requires Valid(st) && FindByKey(st.rows, table, raw, ns) == None
    ensures !KeyTaken(st.rows, table, Scoped(raw, ns))
  {
    var key := Scoped(raw, ns);
    forall r | r in st.rows && r.table == table && key.Some? && st.rows[r].key == key
      ensures false
    {
      ScopedStarts(raw, ns);
      PrefixFree(ns, st.rows[r].ns, key.value);
      assert HasKey(st.rows, table, ns, key.value, r.id);
      FindByKeyFindsTheHolder(st, table, raw, ns, r.id);
    }
  }

  /** What a caller gets from a create that succeeds: a row of its table and namespace, in the state left behind. */
  ghost predicate Delivers(o: Outcome, table: Table, ns: Namespace) {
    o.result.Ok? ==> Ref(table, o.result.value) in o.st.rows && o.st.rows[Ref(table, o.result.value)].ns == ns
  }

  lemma FoundIsDelivered(st: State, row: Row, raw: Option<string>)
    requires Valid(st) && FindExisting(st.rows, row, raw).Some?
    ensures Delivers(Outcome(st, Ok(FindExisting(st.rows, row, raw).value)), TableOf(row.body), row.ns)
  {
  }

  lemma ReferencesSurvive(old_: Rows, new_: Rows, references: seq<Reference>, ns: Namespace)
    requires Extends(old_, new_) && RelationshipsHold(old_, references, ns)
    ensures RelationshipsHold(new_, references, ns)
  {
  }

  /** An insert that passed the checks keeps every invariant of the store. */
  lemma InsertKeepsValid(st: State, row: Row, raw: Option<string>)
    requires Valid(st) && row.key == Scoped(raw, row.ns)
    requires RelationshipsHold(st.rows, References(row.body), row.ns) && FindExisting(st.rows, row, raw) == None
    ensures var r := Ref(TableOf(row.body), st.nextId);
            r !in st.rows && Extends(st.rows, st.rows[r := row]) && Valid(State(st.rows[r := row], st.nextId + 1))
  {
    var table := TableOf(row.body);
    var r := Ref(table, st.nextId);
    var rows := st.rows[r := row];
    assert Extends(st.rows, rows);
    UniqueNeverFires(st, table, raw, row.ns);
    ScopedStarts(raw, row.ns);
    forall s | s in st.rows && s.table == table && st.rows[s].ns == row.ns
               && Natural(st.rows[s].body) == Natural(row.body) != NoNaturalKey
      ensures false
    {
      FindByNaturalFindsTheHolder(st, table, row.ns, Natural(row.body), s.id);
      assert HasNatural(st.rows, table, row.ns, Natural(row.body), s.id);
    }
    forall s | s in rows ensures RelationshipsHold(rows, References(rows[s].body), rows[s].ns) {
      ReferencesSurvive(st.rows, rows, References(rows[s].body), rows[s].ns);
    }
  }

  lemma {:induction false} AdmitKeeps(st: State, row: Row, raw: Option<string>)
    requires Valid(st) && row.key == Scoped(raw, row.ns)
    ensures var o := Admit(st, row, raw);
            Valid(o.st) && Extends(st.rows, o.st.rows) && Delivers(o, TableOf(row.body), row.ns)
  {
    if RelationshipsHold(st.rows, References(row.body), row.ns) {
      if FindExisting(st.rows, row, raw).Some? {
        FoundIsDelivered(st, row, raw);
      } else {
        InsertKeepsValid(st, row, raw);
      }
    }
  }

  /**
   * A create refuses a payload only for a reference it may not use or a record linked twice, and then changes nothing.
   */
  lemma AdmitRefusesExactly(st: State, row: Row, raw: Option<string>)
    requires Valid(st) && row.key == Scoped(raw, row.ns)
    ensures Admit(st, row, raw).result.Err?
       <==> !RelationshipsHold(st.rows, References(row.body), row.ns)
            || (FindExisting(st.rows, row, raw) == None && !LinksAreDistinct(row.body))
    ensures Admit(st, row, raw).result.Err? ==> Admit(st, row, raw).st == st
  {
    if FindExisting(st.rows, row, raw) == None {
      UniqueNeverFires(st, TableOf(row.body), raw, row.ns);
    }
  }

  /** The same create again finds what the first one made or found: same id, nothing written. */
  lemma AdmitIsIdempotent(st: State, row: Row, raw: Option<string>)
    requires Valid(st) && row.key == Scoped(raw, row.ns)
    requires row.key.Some? || Natural(row.body) != NoNaturalKey
    requires Admit(st, row, raw).result.Ok?
    ensures var o := Admit(st, row, raw); Admit(o.st, row, raw) == o
  {
    var o := Admit(st, row, raw);
    AdmitKeeps(st, row, raw);
    ReferencesSurvive(st.rows, o.st.rows, References(row.body), row.ns);
    if FindExisting(st.rows, row, raw) == None {
      var table, id := TableOf(row.body), st.nextId;
      if row.key.Some? {
        assert HasKey(o.st.rows, table, row.ns, row.key.value, id);
        FindByKeyFindsTheHolder(o.st, table, raw, row.ns, id);
      } else {
        assert HasNatural(o.st.rows, table, row.ns, Natural(row.body), id);
        FindByNaturalFindsTheHolder(o.st, table, row.ns, Natural(row.body), id);
      }
    }
  }

  // ---------------------------------------------------------------- the operations

  lemma EverythingExtendsItself(rows: Rows)
    ensures Extends(rows, rows)
  {
  }

  lemma ExtendsTransitive(a: Rows, b: Rows, c: Rows)
    requires Extends(a, b) && Extends(b, c)
    ensures Extends(a, c)
  {
  }

  /** The fixed part of a row decides everything the invariants speak of. */
  lemma FixedDecides(a: Row, b: Row)
    requires Fixed(a) == Fixed(b)
    ensures a.ns == b.ns && a.key == b.key && TableOf(a.body) == TableOf(b.body)
    ensures References(a.body) == References(b.body) && Natural(a.body) == Natural(b.body)
  {
  }

  /** Changes of status, visibility and index state alone keep the store's invariants. */
  lemma CosmeticChangeKeeps(st: State, rows: Rows)
    requires Valid(st) && rows.Keys == st.rows.Keys && Extends(st.rows, rows)
    ensures Valid(State(rows, st.nextId))
  {
    forall r | r in rows
      ensures rows[r].ns == st.rows[r].ns && rows[r].key == st.rows[r].key
      ensures TableOf(rows[r].body) == TableOf(st.rows[r].body) && Natural(rows[r].body) == Natural(st.rows[r].body)
      ensures RelationshipsHold(rows, References(rows[r].body), rows[r].ns)
    {
      FixedDecides(rows[r], st.rows[r]);
      ReferencesSurvive(st.rows, rows, References(rows[r].body), rows[r].ns);
    }
  }

  lemma {:induction false} StatusKeeps(st: State, question: nat, status: Status)
    requires Valid(st)
    ensures Valid(st.(rows := SetStatus(st.rows, question, status)))
    ensures Extends(st.rows, SetStatus(st.rows, question, status))
  {
    CosmeticChangeKeeps(st, SetStatus(st.rows, question, status));
  }

  lemma {:induction false} CreateTopicKeeps(st: State, p: TopicCreate, auth: Option<Auth>)
    requires Valid(st)
    ensures var o := CreateTopic(st, p, auth); Valid(o.st) && Extends(st.rows, o.st.rows)
    ensures var o := CreateTopic(st, p, auth); o.result.Ok? ==> Delivers(o, Topics, WriteNamespace(p.ns, auth).value)
  {
    var ns := WriteNamespace(p.ns, auth);
    if ns.Ok? {
      AdmitKeeps(st, RowFrom(ns.value, p.key, p.text, Private, auth, Topic(p.slug, p.parent)), p.key);
    }
  }

  lemma {:induction false} CreateQuestionKeeps(st: State, p: QuestionCreate, auth: Option<Auth>)
    requires Valid(st)
    ensures var o := CreateQuestion(st, p, auth); Valid(o.st) && Extends(st.rows, o.st.rows)
    ensures var o := CreateQuestion(st, p, auth);
            o.result.Ok? ==> Delivers(o, Questions, WriteNamespace(p.ns, auth).value)
  {
    var ns := WriteNamespace(p.ns, auth);
    if ns.Ok? {
      var topic := if p.topic.Focus? then CreateTopic(st, FocusTopic(ns.value, p.text, p.topic.slug), auth)
                   else Outcome(st, Ok(p.topic.id));
      if p.topic.Focus? {
        CreateTopicKeeps(st, FocusTopic(ns.value, p.text, p.topic.slug), auth);
      }
      if topic.result.Ok? {
        var row := RowFrom(ns.value, p.key, p.text, p.vis, auth,
                           Question(topic.result.value, p.prompt, p.status, p.parent, p.generatedBy));
        AdmitKeeps(topic.st, row, p.key);
        ExtendsTransitive(st.rows, topic.st.rows, Admit(topic.st, row, p.key).st.rows);
      }
    }
  }

  lemma {:induction false} CreateSessionKeeps(st: State, p: SessionCreate, auth: Option<Auth>)
    requires Valid(st)
    ensures var o := CreateSession(st, p, auth); Valid(o.st) && Extends(st.rows, o.st.rows)
    ensures var o := CreateSession(st, p, auth);
            o.result.Ok? ==> Delivers(o, Sessions, WriteNamespace(p.ns, auth).value)
  {
    var ns := WriteNamespace(p.ns, auth);
    if ns.Ok? {
      AdmitKeeps(st, RowFrom(ns.value, p.key, p.text, p.vis, auth, Session(p.question, p.refreshOf)), p.key);
    }
  }

  lemma {:induction false} CreateSourceKeeps(st: State, p: SourceCreate, auth: Option<Auth>)
    requires Valid(st)
    ensures var o := CreateSource(st, p, auth); Valid(o.st) && Extends(st.rows, o.st.rows)
    ensures var o := CreateSource(st, p, auth); o.result.Ok? ==> Delivers(o, Sources, WriteNamespace(p.ns, auth).value)
  {
    var ns := WriteNamespace(p.ns, auth);
    if ns.Ok? {
      AdmitKeeps(st, RowFrom(ns.value, p.key, p.text, p.vis, auth,
                             Source(p.locator, if p.hash.Some? then p.hash.value else "",
                                    p.snapshotRequired, p.snapshotPresent)), p.key);
    }
  }

  lemma {:induction false} CreateExcerptKeeps(st: State, p: ExcerptCreate, auth: Option<Auth>)
    requires Valid(st)
    ensures var o := CreateExcerpt(st, p, auth); Valid(o.st) && Extends(st.rows, o.st.rows)
    ensures var o := CreateExcerpt(st, p, auth);
            o.result.Ok? ==> Delivers(o, Excerpts, WriteNamespace(p.ns, auth).value)
  {
    var ns := WriteNamespace(p.ns, auth);
    if ns.Ok? {
      var source := if p.source.NewSource? then CreateSource(st, p.source.source.(ns := ns.value), auth)
                    else Outcome(st, Ok(p.source.id));
      if p.source.NewSource? {
        CreateSourceKeeps(st, p.source.source.(ns := ns.value), auth);
      }
      var topic := TopicOrQuestions(source.st.rows, p.topic, p.question);
      if source.result.Ok? && topic.Ok? {
        var row := RowFrom(ns.value, p.key, p.text, p.vis, auth,
                           Excerpt(p.question, source.result.value, p.session, topic.value));
        AdmitKeeps(source.st, row, p.key);
        ExtendsTransitive(st.rows, source.st.rows, Admit(source.st, row, p.key).st.rows);
      }
    }
  }

  lemma {:induction false} CreateClaimKeeps(st: State, p: ClaimCreate, auth: Option<Auth>)
    requires Valid(st)
    ensures var o := CreateClaim(st, p, auth); Valid(o.st) && Extends(st.rows, o.st.rows)
    ensures var o := CreateClaim(st, p, auth); o.result.Ok? ==> Delivers(o, Claims, WriteNamespace(p.ns, auth).value)
  {
    var ns := WriteNamespace(p.ns, auth);
    var topic := TopicOrQuestions(st.rows, p.topic, p.question);
    if ns.Ok? && topic.Ok? {
      AdmitKeeps(st, RowFrom(ns.value, p.key, p.text, p.vis, auth,
                             Claim(p.question, p.session, topic.value, p.excerpts)), p.key);
    }
  }

  lemma {:induction false} InsertReportKeeps(st: State, p: ReportCreate, auth: Option<Auth>)
    requires Valid(st)
    ensures var o := InsertReport(st, p, auth); Valid(o.st) && Extends(st.rows, o.st.rows)
    ensures var o := InsertReport(st, p, auth); o.result.Ok? ==> Delivers(o, Reports, WriteNamespace(p.ns, auth).value)
  {
    var ns := WriteNamespace(p.ns, auth);
    if ns.Ok? {
      AdmitKeeps(st, RowFrom(ns.value, p.key, p.text, p.vis, auth,
                             Report(p.question, p.session, p.refreshOf, p.claims)), p.key);
    }
  }

  lemma {:induction false} CreateReportKeeps(st: State, p: ReportCreate, auth: Option<Auth>)
    requires Valid(st)
    ensures var o := CreateReport(st, p, auth); Valid(o.st) && Extends(st.rows, o.st.rows)
    ensures var o := CreateReport(st, p, auth); o.result.Ok? ==> Delivers(o, Reports, WriteNamespace(p.ns, auth).value)
  {
    var inserted := InsertReport(st, p, auth);
    InsertReportKeeps(st, p, auth);
    StatusKeeps(inserted.st, p.question, Answered);
    ExtendsTransitive(st.rows, inserted.st.rows, SetStatus(inserted.st.rows, p.question, Answered));
  }
}
