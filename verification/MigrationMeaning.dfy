/**
 * What a call of the migration runner comes to, said without the runner's own functions: which calls succeed, and
 * that a successful one has run every statement of every migration it reports, one after the other.
 */
module MigrationMeaning {
  import opened PyText
  import PostgresSplitter
  import opened Migrations
  import opened MigrationLaws

  // ---------------------------------------------------------------- traces

  /** Each statement turns one schema into the next. */
  ghost predicate IsTrace(e: Engine, statements: seq<string>, start: Schema, trace: seq<Schema>) {
    && |trace| == |statements| + 1 && trace[0] == start
    && forall i :: 0 <= i < |statements| ==> e.exec(statements[i], trace[i]) == Some(trace[i + 1])
  }

  lemma TraceTail(e: Engine, statements: seq<string>, start: Schema, trace: seq<Schema>)
    requires statements != [] && IsTrace(e, statements, start, trace)
    ensures e.exec(statements[0], start).Some?
    ensures IsTrace(e, statements[1..], e.exec(statements[0], start).value, trace[1..])
  {
    assert e.exec(statements[0], trace[0]) == Some(trace[1]);
    forall i | 0 <= i < |statements| - 1
      ensures e.exec(statements[1..][i], trace[1..][i]) == Some(trace[1..][i + 1])
    {
      assert e.exec(statements[i + 1], trace[i + 1]) == Some(trace[i + 2]);
    }
  }

  /** Running statements follows a trace, the only one there is. */
  lemma {:induction false} RunFollowsTrace(e: Engine, statements: seq<string>, start: Schema, trace: seq<Schema>)
    requires IsTrace(e, statements, start, trace)
    ensures RunStatements(e, statements, start) == Some(trace[|trace| - 1])
  {
    if statements != [] {
      TraceTail(e, statements, start, trace);
      RunFollowsTrace(e, statements[1..], e.exec(statements[0], start).value, trace[1..]);
    }
  }

  lemma {:induction false} RunLeavesTrace(e: Engine, statements: seq<string>, start: Schema)
      returns (trace: seq<Schema>)
    requires RunStatements(e, statements, start).Some?
    ensures IsTrace(e, statements, start, trace)
  {
    if statements == [] {
      trace := [start];
    } else {
      var next := e.exec(statements[0], start).value;
      var rest := RunLeavesTrace(e, statements[1..], next);
      trace := [start] + rest;
      forall i | 0 <= i < |statements| ensures e.exec(statements[i], trace[i]) == Some(trace[i + 1]) {
        assert i > 0 ==> statements[1..][i - 1] == statements[i];
      }
    }
  }

  /** Statements run through exactly if there is a trace over all of them, and fail exactly where one breaks off. */
  lemma {:induction false} RunIsTrace(e: Engine, statements: seq<string>, start: Schema)
    ensures RunStatements(e, statements, start).Some? <==> exists trace :: IsTrace(e, statements, start, trace)
    ensures forall trace :: IsTrace(e, statements, start, trace) ==>
              RunStatements(e, statements, start) == Some(trace[|trace| - 1])
    ensures RunStatements(e, statements, start) == None <==>
              exists k, trace :: 0 <= k < |statements| && IsTrace(e, statements[..k], start, trace)
                                 && e.exec(statements[k], trace[k]) == None
  {
    forall trace | IsTrace(e, statements, start, trace)
      ensures RunStatements(e, statements, start) == Some(trace[|trace| - 1])
    {
      RunFollowsTrace(e, statements, start, trace);
    }
    if RunStatements(e, statements, start).Some? {
      var trace := RunLeavesTrace(e, statements, start);
      forall k, part | 0 <= k < |statements| && IsTrace(e, statements[..k], start, part)
        ensures e.exec(statements[k], part[k]).Some?
      {
        TracesAgree(e, statements, start, trace, k, part);
        assert e.exec(statements[k], trace[k]) == Some(trace[k + 1]);
      }
    } else {
      var k, trace := RunBreaksOff(e, statements, start);
      assert e.exec(statements[k], trace[k]) == None;
    }
  }

  lemma {:induction false} TracesAgree(e: Engine, statements: seq<string>, start: Schema, trace: seq<Schema>, k: nat,
                                       part: seq<Schema>)
    requires k <= |statements| && IsTrace(e, statements, start, trace) && IsTrace(e, statements[..k], start, part)
    ensures part[k] == trace[k]
    decreases k
  {
    if k > 0 {
      assert statements[..k][..k - 1] == statements[..k - 1] && statements[..k][k - 1] == statements[k - 1];
      assert forall i :: 0 <= i < k - 1 ==> statements[..k][i] == statements[..k - 1][i];
      TracesAgree(e, statements, start, trace, k - 1, part[..k]);
    }
  }

  lemma {:induction false} RunBreaksOff(e: Engine, statements: seq<string>, start: Schema)
    returns (k: nat, trace: seq<Schema>)
    requires RunStatements(e, statements, start) == None
    ensures k < |statements| && IsTrace(e, statements[..k], start, trace) && e.exec(statements[k], trace[k]) == None
  {
    if e.exec(statements[0], start) == None {
      k, trace := 0, [start];
    } else {
      var j, rest := RunBreaksOff(e, statements[1..], e.exec(statements[0], start).value);
      k, trace := j + 1, [start] + rest;
      forall i | 0 <= i < k ensures e.exec(statements[..k][i], trace[i]) == Some(trace[i + 1]) {
        assert i > 0 ==> statements[1..][..j][i - 1] == statements[..k][i];
      }
    }
  }

  lemma {:induction false} RunAppend(e: Engine, a: seq<string>, b: seq<string>, start: Schema)
    ensures RunStatements(e, a + b, start)
         == var mid := RunStatements(e, a, start); if mid == None then None else RunStatements(e, b, mid.value)
  {
    if a == [] {
      assert a + b == b;
    } else {
      assert (a + b)[1..] == a[1..] + b;
      if e.exec(a[0], start).Some? {
        RunAppend(e, a[1..], b, e.exec(a[0], start).value);
      }
    }
  }

  // ---------------------------------------------------------------- the statements of migrations

  /** The non-empty ones of the common and the dialect's SQL, with a blank line between. */
  function Sql(m: Migration, dialect: Dialect): string {
    var part := match dialect case Sqlite => m.sqliteSql case Postgres => m.postgresSql;
    if m.common != "" && part != "" then m.common + "\n\n" + part else m.common + part
  }

  /** All statements of the migrations, one after the other. */
  function StatementsOfAll(e: Engine, ms: seq<Migration>): seq<string> {
    if ms == [] then []
    else
      (match e.dialect
       case Sqlite => e.splitSqlite(Sql(ms[0], Sqlite))
       case Postgres => PostgresSplitter.Split(Sql(ms[0], Postgres))) + StatementsOfAll(e, ms[1..])
  }

  lemma SqlIsJoined(e: Engine, m: Migration)
    ensures StatementsOf(e, m)
         == match e.dialect
            case Sqlite => e.splitSqlite(Sql(m, Sqlite))
            case Postgres => PostgresSplitter.Split(Sql(m, Postgres))
  {
    assert m.common == "" ==> forall part: string :: m.common + part == part;
    assert m.common + "" == m.common;
  }

  lemma {:induction false} ApplyRunsStatements(e: Engine, ms: seq<Migration>, db: Db)
    ensures var end := RunStatements(e, StatementsOfAll(e, ms), db.schema);
            && (ApplyAll(e, ms, db).Some? <==> end.Some?)
            && (end.Some? ==> ApplyAll(e, ms, db).value.schema == end.value)
  {
    if ms != [] {
      SqlIsJoined(e, ms[0]);
      RunAppend(e, StatementsOf(e, ms[0]), StatementsOfAll(e, ms[1..]), db.schema);
      var schema := RunStatements(e, StatementsOf(e, ms[0]), db.schema);
      if schema.Some? {
        ApplyRunsStatements(e, ms[1..], Db(schema.value, Some(Recorded(HistoryIn(db), ms[0]))));
      }
    }
  }

  // ---------------------------------------------------------------- when the runner is ready

  /** The tables a migration promises. */
  function Promised(id: string): set<string> {
    if id == "0001_initial" then
      {"topics", "questions", "research_sessions", "sources", "excerpts", "claims", "claim_excerpts", "reports",
       "report_claims", "users", "organizations", "org_memberships", "api_keys", "audit_log"}
    else if id == "0003_v2_evidence" then
      {"content_objects", "source_versions", "evidence_spans", "claim_revisions", "claim_evidence", "review_events",
       "refresh_queue", "idempotency_keys", "migration_backfill_progress", "migration_backfill_warnings",
       "migration_backfill_errors"}
    else if id == "0004_v2_search" then {"search_documents"}
    else if id == "0006_v2_legacy_projection_identity" then {"legacy_projection_identity"}
    else {}
  }

  const PROMISING := ["0001_initial", "0003_v2_evidence", "0004_v2_search", "0006_v2_legacy_projection_identity"]

  /** No table of any of those migrations is there. */
  predicate HoldsNoPromised(tables: set<string>) {
    forall id :: id in PROMISING ==> tables !! Promised(id)
  }

  /** With the first `n` migrations recorded, the schema has what they promise, and is not one of unknown origin. */
  predicate Acceptable(pkg: seq<Migration>, n: nat, schema: Schema)
    requires n <= |pkg|
  {
    && (n == 0 ==> "schema_meta" in schema.tables || HoldsNoPromised(schema.tables))
    && forall i :: 0 <= i < n ==>
         && Promised(pkg[i].id) <= schema.tables
         && (pkg[i].id == "0003_v2_evidence" ==>
               {"canonical_key", "current_revision_id", "scope_json", "updated_at"} <= schema.claimColumns)
  }

  /** The history holds the first `n` migrations with their checksums, and nothing else. */
  ghost predicate RecordsExactly(history: History, pkg: seq<Migration>, n: nat) {
    && n <= |pkg|
    && (forall i :: 0 <= i < n ==> pkg[i].id in history && history[pkg[i].id] == pkg[i].checksum)
    && (forall id :: id in history ==> exists i :: 0 <= i < n && pkg[i].id == id)
  }

  predicate Unversioned(db: Db) {
    db.history == None || db.history.value == map[]
  }

  /** What an unversioned legacy schema becomes: versions before 4 are upgraded, others are taken as they are. */
  predicate Becomes(e: Engine, old_: Schema, new_: Schema) {
    if old_.version.Some? && old_.version.value < 4 then
      e.upgrade(old_).RunsScripts? && e.upgrade(old_).working == Some(new_)
    else new_ == old_
  }

  /** The runner can go on from the schema `start`, with the first `n` migrations recorded. */
  ghost predicate Ready(e: Engine, pkg: seq<Migration>, db: Db, n: nat, start: Schema) {
    && n <= |pkg| && Acceptable(pkg, n, start)
    && if !Unversioned(db) then RecordsExactly(db.history.value, pkg, n) && start == db.schema
       else if "schema_meta" in db.schema.tables then
         Becomes(e, db.schema, start) && forall i :: 0 <= i < |pkg| ==> (pkg[i].isFlat <==> i < n)
       else n == 0 && start == db.schema
  }

  lemma RecordsIsPrefix(history: History, pkg: seq<Migration>, n: nat)
    requires IsPackage(pkg)
    ensures RecordsExactly(history, pkg, n) <==> IsPrefixHistory(pkg, history, n)
  {
    if RecordsExactly(history, pkg, n) {
      RecordedMatches(history, pkg, n);
      MatchingPrefix(pkg, history, n);
    }
    if IsPrefixHistory(pkg, history, n) {
      forall i | 0 <= i < n ensures pkg[i].id in history && history[pkg[i].id] == pkg[i].checksum {
        PrefixRecords(pkg, n, i);
      }
      forall id | id in history ensures exists i :: 0 <= i < n && pkg[i].id == id {
        HistoryHoldsOnly(pkg[..n], id);
        var i :| 0 <= i < n && pkg[..n][i].id == id;
        assert pkg[i].id == id;
      }
    }
  }

  lemma RecordedMatches(history: History, pkg: seq<Migration>, n: nat)
    requires IsPackage(pkg) && RecordsExactly(history, pkg, n)
    ensures forall id :: id in history ==> Matches(pkg, history, id)
    ensures forall j :: 0 <= j < |pkg| ==> (pkg[j].id in history <==> j < n)
  {
    forall id | id in history ensures Matches(pkg, history, id) {
      var i :| 0 <= i < n && pkg[i].id == id;
      assert pkg[i].checksum == history[id];
    }
    forall j | 0 <= j < |pkg| && pkg[j].id in history ensures j < n {
      var i :| 0 <= i < n && pkg[i].id == pkg[j].id;
      assert i == j by {
        assert IsPackage(pkg);
      }
    }
  }

  lemma {:induction false} FlatRest(pkg: seq<Migration>, i: nat, history: History)
    requires i <= |pkg| && forall j :: i <= j < |pkg| ==> !pkg[j].isFlat
    ensures RecordFlat(pkg[i..], history) == history
    decreases |pkg| - i
  {
    if i < |pkg| {
      assert pkg[i..][0] == pkg[i] && pkg[i..][1..] == pkg[i + 1..];
      FlatRest(pkg, i + 1, history);
    }
  }

  lemma {:induction false} FlatFront(pkg: seq<Migration>, i: nat, n: nat)
    requires IsPackage(pkg) && i <= n <= |pkg| && forall j :: 0 <= j < |pkg| ==> (pkg[j].isFlat <==> j < n)
    ensures RecordFlat(pkg[i..], HistoryOf(pkg[..i])) == HistoryOf(pkg[..n])
    decreases n - i
  {
    if i == n {
      FlatRest(pkg, n, HistoryOf(pkg[..n]));
    } else {
      assert pkg[i..][0] == pkg[i] && pkg[i..][1..] == pkg[i + 1..];
      NextPrefix(pkg, i);
      FlatFront(pkg, i + 1, n);
    }
  }

  /** Adopting records a prefix of the package exactly if that prefix is what is flat in it. */
  lemma AdoptedPrefix(pkg: seq<Migration>, n: nat)
    requires IsPackage(pkg) && n <= |pkg|
    ensures RecordFlat(pkg, map[]) == HistoryOf(pkg[..n]) <==> forall i :: 0 <= i < |pkg| ==> (pkg[i].isFlat <==> i < n)
  {
    assert pkg[0..] == pkg && pkg[..0] == [] && HistoryOf([]) == map[];
    hide RecordFlat, HistoryOf, IsPackage;
    if forall i :: 0 <= i < |pkg| ==> (pkg[i].isFlat <==> i < n) {
      FlatFront(pkg, 0, n);
    }
    if RecordFlat(pkg, map[]) == HistoryOf(pkg[..n]) {
      forall i | 0 <= i < |pkg| ensures pkg[i].isFlat <==> i < n {
        FlatIsRecorded(pkg, map[], pkg[i].id);
        PrefixRecords(pkg, n, i);
      }
    }
  }

  lemma ManagedIsPromised(tables: set<string>)
    ensures tables * Managed() == {} <==> HoldsNoPromised(tables)
  {
    var p := PROMISING;
    assert p[0] in p && p[1] in p && p[2] in p && p[3] in p;
    assert Promised(p[0]) == V1_TABLES && Promised(p[1]) == V2_TABLES;
    assert Promised(p[2]) == SEARCH_TABLES && Promised(p[3]) == PROJECTION_TABLES;
    hide V1_TABLES, V2_TABLES, SEARCH_TABLES, PROJECTION_TABLES, Promised;
  }

  lemma PromisesAreTables()
    ensures Promised("0001_initial") == V1_TABLES && Promised("0003_v2_evidence") == V2_TABLES
    ensures Promised("0004_v2_search") == SEARCH_TABLES
    ensures Promised("0006_v2_legacy_projection_identity") == PROJECTION_TABLES
    ensures forall id :: id in PROMISING || Promised(id) == {}
    ensures forall id :: "schema_migrations" !in Promised(id)
    ensures V2_CLAIM_COLUMNS == {"canonical_key", "current_revision_id", "scope_json", "updated_at"}
  {
  }

  /** What the runner validates, where the history is the first `n` migrations. */
  lemma AcceptableIsAccepted(pkg: seq<Migration>, n: nat, db: Db)
    requires IsPackage(pkg) && n <= |pkg| && HistoryIn(db) == HistoryOf(pkg[..n])
    ensures Accepted(pkg, HistoryIn(db), db) <==> Acceptable(pkg, n, db.schema)
  {
    var applied := HistoryIn(db);
    RecordsIsPrefix(applied, pkg, n);
    PromisesAreTables();
    ManagedHidesHistory(db);
    ManagedIsPromised(db.schema.tables);
    assert IsPrefixHistory(pkg, applied, n);
    hide V1_TABLES, V2_TABLES, SEARCH_TABLES, PROJECTION_TABLES, V2_CLAIM_COLUMNS, Promised, Managed, HistoryOf,
         IsPrefixHistory;
    assert applied == map[] <==> n == 0;
    InvariantsOfRecorded(pkg, n, db);
  }

  lemma ManagedHidesHistory(db: Db)
    ensures Tables(db) * Managed() == db.schema.tables * Managed()
    ensures "schema_meta" in Tables(db) <==> "schema_meta" in db.schema.tables
  {
    HistoryIsNotV1();
    HistoryIsNotV2();
    hide V1_TABLES, V2_TABLES;
  }

  lemma HistoryIsNotV1()
    ensures "schema_migrations" !in V1_TABLES
  {
  }

  lemma HistoryIsNotV2()
    ensures "schema_migrations" !in V2_TABLES
  {
  }

  predicate Kept(id: string, schema: Schema) {
    && Promised(id) <= schema.tables
    && (id == "0003_v2_evidence" ==>
          {"canonical_key", "current_revision_id", "scope_json", "updated_at"} <= schema.claimColumns)
  }

  lemma InvariantsAreKept(applied: History, db: Db)
    ensures SchemaInvariants(applied, db) <==> forall id :: id in applied && id in PROMISING ==> Kept(id, db.schema)
  {
    PromisesAreTables();
    var p := PROMISING;
    assert p[0] in p && p[1] in p && p[2] in p && p[3] in p;
    hide V1_TABLES, V2_TABLES, SEARCH_TABLES, PROJECTION_TABLES, V2_CLAIM_COLUMNS, Promised;
    forall id: string ensures Promised(id) <= Tables(db) <==> Promised(id) <= db.schema.tables {
      assert "schema_migrations" !in Promised(id);
    }
  }

  lemma InvariantsOfRecorded(pkg: seq<Migration>, n: nat, db: Db)
    requires n <= |pkg| && RecordsExactly(HistoryIn(db), pkg, n)
    ensures SchemaInvariants(HistoryIn(db), db) <==>
              forall i :: 0 <= i < n ==>
                && Promised(pkg[i].id) <= db.schema.tables
                && (pkg[i].id == "0003_v2_evidence" ==>
                      {"canonical_key", "current_revision_id", "scope_json", "updated_at"} <= db.schema.claimColumns)
  {
    var applied := HistoryIn(db);
    InvariantsAreKept(applied, db);
    OthersPromiseNothing(db.schema);
    hide SchemaInvariants, Promised, PROMISING;
    assert forall i :: 0 <= i < n ==> pkg[i].id in applied;
  }

  lemma OthersPromiseNothing(schema: Schema)
    ensures forall id :: id in PROMISING || Kept(id, schema)
  {
    var p := PROMISING;
    assert p[1] in p;
    PromisesAreTables();
    hide Promised;
  }

  // ---------------------------------------------------------------- the runner is ready where it goes on

  lemma {:induction false} ReadyIsPrepared(e: Engine, pkg: seq<Migration>, db: Db, n: nat, start: Schema)
    requires IsPackage(pkg)
    ensures Ready(e, pkg, db, n, start) <==>
              var w := Prepare(e, pkg, db).working;
              w.Some? && w.value.schema == start && IsPrefixHistory(pkg, HistoryIn(w.value), n)
  {
    if n <= |pkg| {
      if Unversioned(db) {
        UnversionedIsReady(e, pkg, db, n, start);
      } else {
        VersionedIsReady(e, pkg, db, n, start);
      }
    }
  }

  lemma VersionedIsReady(e: Engine, pkg: seq<Migration>, db: Db, n: nat, start: Schema)
    requires IsPackage(pkg) && n <= |pkg| && !Unversioned(db)
    ensures Ready(e, pkg, db, n, start) <==>
              var w := Prepare(e, pkg, db).working;
              w.Some? && w.value.schema == start && IsPrefixHistory(pkg, HistoryIn(w.value), n)
  {
    RecordsIsPrefix(db.history.value, pkg, n);
    if HistoryIn(db) == HistoryOf(pkg[..n]) {
      AcceptableIsAccepted(pkg, n, db);
    }
    assert db.(history := Some(HistoryIn(db))) == db;
    hide Acceptable, Accepted, HistoryOf, Managed, RecordsExactly, IsPackage;
  }

  /** Before an unversioned database is bootstrapped, all that is refused are promised tables of unknown origin. */
  lemma UnversionedIsAccepted(pkg: seq<Migration>, db: Db)
    requires Unversioned(db)
    ensures var ensured := db.(history := Some(HistoryIn(db)));
            Accepted(pkg, HistoryIn(db), ensured)
            <==> "schema_meta" in db.schema.tables || HoldsNoPromised(db.schema.tables)
  {
    var ensured := db.(history := Some(HistoryIn(db)));
    ManagedHidesHistory(ensured);
    ManagedIsPromised(db.schema.tables);
    hide Managed, HoldsNoPromised, V1_TABLES, V2_TABLES, SEARCH_TABLES, PROJECTION_TABLES, V2_CLAIM_COLUMNS;
    assert pkg[..0] == [];
    assert IsPrefixHistory(pkg, map[], 0);
  }

  lemma UnversionedIsReady(e: Engine, pkg: seq<Migration>, db: Db, n: nat, start: Schema)
    requires IsPackage(pkg) && n <= |pkg| && Unversioned(db)
    ensures Ready(e, pkg, db, n, start) <==>
              var w := Prepare(e, pkg, db).working;
              w.Some? && w.value.schema == start && IsPrefixHistory(pkg, HistoryIn(w.value), n)
  {
    UnversionedIsAccepted(pkg, db);
    if "schema_meta" in db.schema.tables {
      LegacyIsReady(e, pkg, db, n, start);
    } else {
      FreshIsReady(e, pkg, db, n, start);
    }
  }

  lemma LegacyIsReady(e: Engine, pkg: seq<Migration>, db: Db, n: nat, start: Schema)
    requires IsPackage(pkg) && n <= |pkg| && Unversioned(db) && "schema_meta" in db.schema.tables
    ensures Ready(e, pkg, db, n, start) <==>
              var w := Prepare(e, pkg, db).working;
              w.Some? && w.value.schema == start && IsPrefixHistory(pkg, HistoryIn(w.value), n)
  {
    UnversionedIsAccepted(pkg, db);
    AdoptedPrefix(pkg, n);
    var adopted := Db(start, Some(RecordFlat(pkg, map[])));
    if RecordFlat(pkg, map[]) == HistoryOf(pkg[..n]) {
      AcceptableIsAccepted(pkg, n, adopted);
    }
    hide Acceptable, Accepted, HistoryOf, Managed, RecordFlat, HoldsNoPromised, IsPackage;
    LegacyBootstrap(e, pkg, db);
  }

  lemma LegacyBootstrap(e: Engine, pkg: seq<Migration>, db: Db)
    requires Unversioned(db) && "schema_meta" in db.schema.tables
    ensures var w := Bootstrap(e, pkg, db).working;
            && (forall start :: Becomes(e, db.schema, start) <==> w == Some(Db(start, Some(RecordFlat(pkg, map[])))))
  {
    hide Managed, RecordFlat;
  }

  lemma FreshIsReady(e: Engine, pkg: seq<Migration>, db: Db, n: nat, start: Schema)
    requires IsPackage(pkg) && n <= |pkg| && Unversioned(db) && "schema_meta" !in db.schema.tables
    ensures Ready(e, pkg, db, n, start) <==>
              var w := Prepare(e, pkg, db).working;
              w.Some? && w.value.schema == start && IsPrefixHistory(pkg, HistoryIn(w.value), n)
  {
    UnversionedIsAccepted(pkg, db);
    var ensured := db.(history := Some(map[]));
    assert pkg[..0] == [] && HistoryOf([]) == map[];
    AcceptableIsAccepted(pkg, 0, ensured);
    ManagedHidesHistory(ensured);
    ManagedIsPromised(db.schema.tables);
    if IsPrefixHistory(pkg, map[], n) {
      PrefixIsUnique(pkg, map[], 0, n);
    }
    assert IsPrefixHistory(pkg, map[], 0);
    hide Accepted, HistoryOf, Managed, HoldsNoPromised, IsPackage, Promised, IsPrefixHistory;
  }

  // ---------------------------------------------------------------- what a call comes to

  /** The target names the first `k` migrations: up to the one with its id, or all. */
  ghost predicate Names(pkg: seq<Migration>, target: Option<string>, k: nat) {
    k <= |pkg| && match target case None => k == |pkg| case Some(id) => k > 0 && pkg[k - 1].id == id
  }

  function Pending(pkg: seq<Migration>, n: nat, k: nat): seq<Migration>
    requires k <= |pkg|
  {
    if n < k then pkg[n..k] else []
  }

  /** The migrations that can run in the call's transaction, and the others, in order. */
  function Runnable(ms: seq<Migration>, dialect: Dialect): seq<Migration> {
    if ms == [] then [] else if dialect in ms[0].transactional then [ms[0]] + Runnable(ms[1..], dialect)
    else Runnable(ms[1..], dialect)
  }

  function NotRunnable(ms: seq<Migration>, dialect: Dialect): seq<Migration> {
    if ms == [] then [] else if dialect in ms[0].transactional then NotRunnable(ms[1..], dialect)
    else [ms[0]] + NotRunnable(ms[1..], dialect)
  }

  /**
   * How a call goes through: the first `n` migrations are recorded, the target names the first `k`, none of those to be
   * run is refused, and a trace leads from the schema the runner starts from over all their statements.
   */
  ghost predicate Way(e: Engine, pkg: seq<Migration>, target: Option<string>, dryRun: bool, db: Db,
                      n: nat, k: nat, trace: seq<Schema>)
  {
    && trace != [] && Ready(e, pkg, db, n, trace[0]) && Names(pkg, target, k)
    && (dryRun || NotRunnable(Pending(pkg, n, k), e.dialect) == [])
    && IsTrace(e, StatementsOfAll(e, Runnable(Pending(pkg, n, k), e.dialect)), trace[0], trace)
  }

  predicate AreIds(ids: seq<string>, ms: seq<Migration>) {
    |ids| == |ms| && forall i :: 0 <= i < |ms| ==> ids[i] == ms[i].id
  }

  /** What a call that goes through this way reports and leaves. */
  ghost predicate Comes(e: Engine, pkg: seq<Migration>, dryRun: bool, db: Db, n: nat, k: nat, last: Schema, o: Outcome)
    requires k <= |pkg| && n <= |pkg|
  {
    && o.result.Ok?
    && var r, pending := o.result.value, Pending(pkg, n, k);
       && r.dryRun == dryRun
       && r.adopted == (if Unversioned(db) then set i | 0 <= i < n :: pkg[i].id else {})
       && AreIds(r.verified, pkg[..if n < k then n else k])
       && if dryRun then
            AreIds(r.pending, pending) && AreIds(r.skipped, NotRunnable(pending, e.dialect)) && r.applied == []
            && !r.current
          else
            && AreIds(r.applied, pending) && r.pending == [] && r.skipped == []
            && (r.current <==> pending == [] && r.adopted == {})
            && o.committed.schema == last && o.committed.history.Some?
            && RecordsExactly(o.committed.history.value, pkg, if n < k then k else n)
  }

  lemma {:induction false} SelectNames(pkg: seq<Migration>, target: Option<string>, k: nat)
    requires IsPackage(pkg)
    ensures Names(pkg, target, k) <==> k <= |pkg| && Select(pkg, target) == Some(pkg[..k])
  {
    if target.Some? {
      if SelectUpTo(pkg, target.value).Some? {
        var j := SelectIsPrefix(pkg, target.value);
        if k <= |pkg| && pkg[..j] == pkg[..k] {
          assert |pkg[..j]| == j && |pkg[..k]| == k;
        }
        if k <= |pkg| && k > 0 && pkg[k - 1].id == target.value {
          assert pkg[j - 1].id == pkg[k - 1].id;
          assert IsPackage(pkg) && j - 1 == k - 1;
        }
      } else if 0 < k <= |pkg| {
        NotSelected(pkg, target.value, k - 1);
      }
    } else if k <= |pkg| {
      assert |pkg[..k]| == k && pkg[..|pkg|] == pkg;
    }
  }

  lemma {:induction false} NotSelected(pkg: seq<Migration>, target: string, i: nat)
    requires SelectUpTo(pkg, target) == None && i < |pkg|
    ensures pkg[i].id != target
  {
    if i > 0 {
      NotSelected(pkg[1..], target, i - 1);
    }
  }

  lemma {:induction false} RunnableIsTransactional(ms: seq<Migration>, dialect: Dialect)
    ensures Runnable(ms, dialect) == Transactional(ms, dialect, true)
    ensures NotRunnable(ms, dialect) == Transactional(ms, dialect, false)
  {
    if ms != [] {
      RunnableIsTransactional(ms[1..], dialect);
    }
  }

  lemma IdsAreIds(ms: seq<Migration>)
    ensures AreIds(Ids(ms), ms)
  {
  }

  /** Ready and named is what the runner lays out. */
  lemma WayIsLaid(e: Engine, pkg: seq<Migration>, target: Option<string>, db: Db, n: nat, k: nat, start: Schema)
    requires IsPackage(pkg) && Ready(e, pkg, db, n, start) && Names(pkg, target, k)
    ensures Laid(e, pkg, target, db, n, k)
  {
    SelectNames(pkg, target, k);
    ReadyIsPrepared(e, pkg, db, n, start);
    hide Prepare, HistoryOf, Select, Names, NotIn, In, Ready;
    SelectedSplits(pkg, n, k);
  }

  lemma LaidIsWay(e: Engine, pkg: seq<Migration>, target: Option<string>, db: Db, n: nat, k: nat)
    requires IsPackage(pkg) && Laid(e, pkg, target, db, n, k)
    ensures n <= |pkg| && k <= |pkg| && Prepare(e, pkg, db).working.Some? && Names(pkg, target, k)
    ensures Ready(e, pkg, db, n, Prepare(e, pkg, db).working.value.schema)
  {
    SelectNames(pkg, target, k);
    ReadyIsPrepared(e, pkg, db, n, Prepare(e, pkg, db).working.value.schema);
    hide Prepare, HistoryOf, Select, Names, NotIn, In, Ready;
  }

  lemma PendingIsCut(pkg: seq<Migration>, n: nat, k: nat)
    requires n <= |pkg| && k <= |pkg|
    ensures Pending(pkg, n, k) == pkg[Min(n, k)..k]
  {
  }

  lemma Executed(e: Engine, pkg: seq<Migration>, n: nat, k: nat)
    requires n <= |pkg| && k <= |pkg|
    ensures var pending := pkg[Min(n, k)..k];
            var skipped := Transactional(pending, e.dialect, false);
            && NotRunnable(Pending(pkg, n, k), e.dialect) == skipped
            && Runnable(Pending(pkg, n, k), e.dialect)
               == if skipped == [] then pending else Transactional(pending, e.dialect, true)
  {
    PendingIsCut(pkg, n, k);
    var pending := pkg[Min(n, k)..k];
    RunnableIsTransactional(pending, e.dialect);
    if Transactional(pending, e.dialect, false) == [] {
      AllTransactional(pending, e.dialect);
    }
  }

  /** A laid-out call goes through exactly if a trace over its statements exists and nothing stands in its way. */
  lemma {:induction false} LaidGoesThrough(e: Engine, pkg: seq<Migration>, target: Option<string>, dryRun: bool, db: Db,
                                           n: nat, k: nat)
    requires IsPackage(pkg) && Laid(e, pkg, target, db, n, k)
    ensures Migrate(e, pkg, target, dryRun, db).result.Ok? <==>
              exists trace :: Way(e, pkg, target, dryRun, db, n, k, trace)
    ensures Migrate(e, pkg, target, dryRun, db).result.Ok? && !dryRun ==>
              forall trace :: Way(e, pkg, target, dryRun, db, n, k, trace) ==>
                Migrate(e, pkg, target, dryRun, db).committed.schema == trace[|trace| - 1]
  {
    hide Migrate, Prepare, Transactional, Laid, Ready, Names, IsTrace, ApplyAll, RunStatements, StatementsOfAll,
         Runnable, NotRunnable, IsPackage, IsPrefixHistory, HistoryOf, Ids;
    LaidIsWay(e, pkg, target, db, n, k);
    LaidRuns(e, pkg, target, dryRun, db, n, k);
    var w := Prepare(e, pkg, db).working.value;
    var run := Runnable(Pending(pkg, n, k), e.dialect);
    RunIsTrace(e, StatementsOfAll(e, run), w.schema);
    StartIsOne(e, pkg, db, n);
    if trace :| IsTrace(e, StatementsOfAll(e, run), w.schema, trace) {
      TraceStarts(e, StatementsOfAll(e, run), w.schema, trace);
      assert NotRunnable(Pending(pkg, n, k), e.dialect) == [] || dryRun ==>
        Way(e, pkg, target, dryRun, db, n, k, trace);
    }
  }

  lemma LaidRuns(e: Engine, pkg: seq<Migration>, target: Option<string>, dryRun: bool, db: Db, n: nat, k: nat)
    requires IsPackage(pkg) && Laid(e, pkg, target, db, n, k)
    ensures n <= |pkg| && k <= |pkg| && Prepare(e, pkg, db).working.Some?
    ensures var start, pending := Prepare(e, pkg, db).working.value.schema, Pending(pkg, n, k);
            var end := RunStatements(e, StatementsOfAll(e, Runnable(pending, e.dialect)), start);
            var o := Migrate(e, pkg, target, dryRun, db);
            && (o.result.Ok? <==> (NotRunnable(pending, e.dialect) == [] || dryRun) && end.Some?)
            && (o.result.Ok? && !dryRun ==> o.committed.schema == end.value)
  {
    hide Migrate, Prepare, Transactional, Laid, ApplyAll, RunStatements, StatementsOfAll, Runnable, NotRunnable,
         IsPackage, IsPrefixHistory, HistoryOf, Ids;
    LaidIsWay(e, pkg, target, db, n, k);
    LaidOutcome(e, pkg, target, dryRun, db, n, k);
    Executed(e, pkg, n, k);
    ApplyRunsStatements(e, Runnable(Pending(pkg, n, k), e.dialect), Prepare(e, pkg, db).working.value);
  }

  lemma TraceStarts(e: Engine, statements: seq<string>, start: Schema, trace: seq<Schema>)
    requires IsTrace(e, statements, start, trace)
    ensures trace != [] && trace[0] == start
  {
  }

  lemma StartIsOne(e: Engine, pkg: seq<Migration>, db: Db, n: nat)
    requires IsPackage(pkg) && Prepare(e, pkg, db).working.Some?
    ensures forall start :: Ready(e, pkg, db, n, start) ==> start == Prepare(e, pkg, db).working.value.schema
  {
    hide Ready, Prepare;
    forall start: Schema | Ready(e, pkg, db, n, start)
      ensures start == Prepare(e, pkg, db).working.value.schema
    {
      ReadyIsPrepared(e, pkg, db, n, start);
    }
  }

  /** Without a known target or a state the runner accepts, nothing goes through. */
  lemma OkIsLaid(e: Engine, pkg: seq<Migration>, target: Option<string>, dryRun: bool, db: Db)
    requires Migrate(e, pkg, target, dryRun, db).result.Ok?
    ensures Select(pkg, target).Some? && Prepare(e, pkg, db).working.Some?
  {
    hide Prepare, ApplyAll;
  }

  lemma ReportedAdoption(e: Engine, pkg: seq<Migration>, target: Option<string>, dryRun: bool, db: Db)
    requires Migrate(e, pkg, target, dryRun, db).result.Ok?
    ensures Prepare(e, pkg, db).working.Some?
    ensures var r, applied := Migrate(e, pkg, target, dryRun, db).result.value,
                              HistoryIn(Prepare(e, pkg, db).working.value);
            && r.dryRun == dryRun && r.adopted == applied.Keys - HistoryIn(db).Keys
            && (r.current <==> !dryRun && r.applied == [] && r.adopted == {})
  {
    hide Prepare, ApplyAll, NotIn, In, Transactional;
  }

  lemma PrefixKeys(pkg: seq<Migration>, n: nat)
    requires n <= |pkg|
    ensures HistoryOf(pkg[..n]).Keys == set i | 0 <= i < n :: pkg[i].id
  {
    forall id ensures id in HistoryOf(pkg[..n]) <==> exists i :: 0 <= i < n && pkg[i].id == id {
      HistoryHoldsOnly(pkg[..n], id);
      if j :| 0 <= j < |pkg[..n]| && pkg[..n][j].id == id {
        assert pkg[j].id == id;
      }
      if i :| 0 <= i < n && pkg[i].id == id {
        assert pkg[..n][i].id == id;
      }
    }
  }

  lemma AdoptedIds(e: Engine, pkg: seq<Migration>, target: Option<string>, db: Db, n: nat, k: nat)
    requires IsPackage(pkg) && Laid(e, pkg, target, db, n, k)
    ensures n <= |pkg| && Prepare(e, pkg, db).working.Some?
    ensures HistoryIn(Prepare(e, pkg, db).working.value).Keys - HistoryIn(db).Keys
         == if Unversioned(db) then set i | 0 <= i < n :: pkg[i].id else {}
  {
    hide Prepare, NotIn, In, Select;
    PrefixKeys(pkg, n);
    if !Unversioned(db) {
      VersionedIsTakenAsIs(e, pkg, db);
    }
  }

  lemma WayParts(e: Engine, pkg: seq<Migration>, target: Option<string>, dryRun: bool, db: Db,
                 n: nat, k: nat, trace: seq<Schema>)
    requires IsPackage(pkg) && Way(e, pkg, target, dryRun, db, n, k, trace)
    ensures trace != [] && n <= |pkg| && k <= |pkg| && Laid(e, pkg, target, db, n, k)
  {
    hide Ready, Names, Laid, IsTrace, IsPackage;
    WayIsLaid(e, pkg, target, db, n, k, trace[0]);
    LaidIsWay(e, pkg, target, db, n, k);
  }

  /** What a laid-out dry run reports. */
  lemma DryRunComes(e: Engine, pkg: seq<Migration>, target: Option<string>, db: Db, n: nat, k: nat, last: Schema)
    requires IsPackage(pkg) && n <= |pkg| && k <= |pkg| && Laid(e, pkg, target, db, n, k)
    requires Migrate(e, pkg, target, true, db).result.Ok?
    ensures Comes(e, pkg, true, db, n, k, last, Migrate(e, pkg, target, true, db))
  {
    hide Migrate, Prepare, Laid, Ready, ApplyAll, Runnable, NotRunnable, Ids, IsPackage, RecordsExactly,
         IsPrefixHistory, HistoryOf, Transactional, Unversioned, AreIds;
    LaidOutcome(e, pkg, target, true, db, n, k);
    Executed(e, pkg, n, k);
    PendingIsCut(pkg, n, k);
    AdoptedIds(e, pkg, target, db, n, k);
    ReportedAdoption(e, pkg, target, true, db);
    var pending := Pending(pkg, n, k);
    IdsAreIds(pkg[..Min(n, k)]);
    IdsAreIds(pending);
    IdsAreIds(NotRunnable(pending, e.dialect));
  }

  /** What a laid-out real run reports and leaves. */
  lemma RunComes(e: Engine, pkg: seq<Migration>, target: Option<string>, db: Db, n: nat, k: nat, last: Schema)
    requires IsPackage(pkg) && n <= |pkg| && k <= |pkg| && Laid(e, pkg, target, db, n, k)
    requires Migrate(e, pkg, target, false, db).result.Ok?
    requires Migrate(e, pkg, target, false, db).committed.schema == last
    ensures Comes(e, pkg, false, db, n, k, last, Migrate(e, pkg, target, false, db))
  {
    hide Migrate, Prepare, Laid, Ready, ApplyAll, Runnable, NotRunnable, Ids, IsPackage, RecordsExactly,
         IsPrefixHistory, HistoryOf, Transactional, Unversioned, AreIds;
    LaidOutcome(e, pkg, target, false, db, n, k);
    Executed(e, pkg, n, k);
    PendingIsCut(pkg, n, k);
    AdoptedIds(e, pkg, target, db, n, k);
    ReportedAdoption(e, pkg, target, false, db);
    LaidRecords(e, pkg, target, db, n, k);
    var pending := Pending(pkg, n, k);
    IdsAreIds(pkg[..Min(n, k)]);
    IdsAreIds(pending);
    NoIds(pending);
  }

  lemma NoIds(ms: seq<Migration>)
    ensures Ids(ms) == [] <==> ms == []
  {
    assert |Ids(ms)| == |ms|;
  }

  /**
   * Whatever way there is for a call, the call goes through, and the way says what it reports and leaves. In
   * particular, a real run has run all statements of all migrations it reports as applied, one after the other.
   */
  lemma WayComes(e: Engine, pkg: seq<Migration>, target: Option<string>, dryRun: bool, db: Db,
                 n: nat, k: nat, trace: seq<Schema>)
    requires IsPackage(pkg) && Way(e, pkg, target, dryRun, db, n, k, trace)
    ensures n <= |pkg| && k <= |pkg| && trace != []
    ensures Comes(e, pkg, dryRun, db, n, k, trace[|trace| - 1], Migrate(e, pkg, target, dryRun, db))
  {
    hide Migrate, Way, Laid, IsPackage, Comes;
    WayParts(e, pkg, target, dryRun, db, n, k, trace);
    LaidGoesThrough(e, pkg, target, dryRun, db, n, k);
    if dryRun {
      DryRunComes(e, pkg, target, db, n, k, trace[|trace| - 1]);
    } else {
      RunComes(e, pkg, target, db, n, k, trace[|trace| - 1]);
    }
  }

  lemma LaidRecords(e: Engine, pkg: seq<Migration>, target: Option<string>, db: Db, n: nat, k: nat)
    requires IsPackage(pkg) && Laid(e, pkg, target, db, n, k) && Migrate(e, pkg, target, false, db).result.Ok?
    ensures var o := Migrate(e, pkg, target, false, db);
            o.committed.history.Some? && RecordsExactly(o.committed.history.value, pkg, if n < k then k else n)
  {
    LaidOutcome(e, pkg, target, false, db, n, k);
    var o := Migrate(e, pkg, target, false, db);
    RecordsIsPrefix(HistoryIn(o.committed), pkg, if n < k then k else n);
    HistoryIsThere(e, pkg, target, db);
    hide Migrate, Laid, Prepare, ApplyAll;
  }

  lemma HistoryIsThere(e: Engine, pkg: seq<Migration>, target: Option<string>, db: Db)
    requires Migrate(e, pkg, target, false, db).result.Ok?
    ensures Migrate(e, pkg, target, false, db).committed.history.Some?
  {
    OkIsLaid(e, pkg, target, false, db);
    PreparedIsAccepted(e, pkg, db);
    hide Prepare, Accepted, NotIn, In;
    var w := Prepare(e, pkg, db).working.value;
    var pending := NotIn(Select(pkg, target).value, HistoryIn(w));
    AppliedKeepsHistory(e, Transactional(pending, e.dialect, true), w);
  }

  lemma {:induction false} AppliedKeepsHistory(e: Engine, ms: seq<Migration>, db: Db)
    requires db.history.Some? && ApplyAll(e, ms, db).Some?
    ensures ApplyAll(e, ms, db).value.history.Some?
  {
    if ms != [] {
      var schema := RunStatements(e, StatementsOf(e, ms[0]), db.schema);
      AppliedKeepsHistory(e, ms[1..], Db(schema.value, Some(Recorded(HistoryIn(db), ms[0]))));
    }
  }

  /** A call goes through exactly if there is a way for it. */
  lemma MigrateHasWay(e: Engine, pkg: seq<Migration>, target: Option<string>, dryRun: bool, db: Db)
    requires IsPackage(pkg)
    ensures Migrate(e, pkg, target, dryRun, db).result.Ok? <==>
              exists n, k, trace :: Way(e, pkg, target, dryRun, db, n, k, trace)
  {
    hide Migrate, Way, Laid, Prepare, Select, IsPackage, Comes;
    if Migrate(e, pkg, target, dryRun, db).result.Ok? {
      OkIsLaid(e, pkg, target, dryRun, db);
      var n, k := LayOut(e, pkg, target, db);
      LaidGoesThrough(e, pkg, target, dryRun, db, n, k);
    }
    if n, k, trace :| Way(e, pkg, target, dryRun, db, n, k, trace) {
      WayParts(e, pkg, target, dryRun, db, n, k, trace);
      LaidGoesThrough(e, pkg, target, dryRun, db, n, k);
    }
  }
}
