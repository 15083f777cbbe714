/** The migration runner of src/research_registry/migration_runner.py as a function on databases. */
module Migrations {
  import opened PyText
  import PostgresSplitter
  import SplitterBundles

  datatype Dialect = Sqlite | Postgres

  /** A flat migration has empty dialect parts; a bundle has common and per-dialect SQL. */
  datatype Migration = Migration(id: string, checksum: string, common: string, sqliteSql: string, postgresSql: string,
                                 transactional: set<Dialect>, isFlat: bool)

  /** What statements work on: the tables, the columns of `claims`, the legacy version, and everything else. */
  datatype Schema = Schema(tables: set<string>, claimColumns: set<string>, version: Option<int>, content: seq<string>)

  type History = map<string, string>

  /** A database; without `history` the table `schema_migrations` does not exist. */
  datatype Db = Db(schema: Schema, history: Option<History>)

  /**
   * The upgrade of a legacy schema may raise before it starts its first script. Once it gets there, it leaves what was
   * last committed on the way, where a script commits at all, and, if it succeeds, a schema to go on with.
   */
  datatype Upgrade = RaisesEarly | RunsScripts(committed: Schema, working: Option<Schema>)

  /** The database engine: the statements of a script, the effect of one (none: it fails), and the legacy upgrade. */
  datatype Engine = Engine(dialect: Dialect, splitSqlite: string -> seq<string>,
                           exec: (string, Schema) -> Option<Schema>, upgrade: Schema -> Upgrade)

  const LEGACY_SCHEMA_VERSION := 4

  const V1_TABLES: set<string> := {
    "topics", "questions", "research_sessions", "sources", "excerpts", "claims", "claim_excerpts", "reports",
    "report_claims", "users", "organizations", "org_memberships", "api_keys", "audit_log"}
  const V2_TABLES: set<string> := {
    "content_objects", "source_versions", "evidence_spans", "claim_revisions", "claim_evidence", "review_events",
    "refresh_queue", "idempotency_keys", "migration_backfill_progress", "migration_backfill_warnings",
    "migration_backfill_errors"}
  const SEARCH_TABLES: set<string> := {"search_documents"}
  const PROJECTION_TABLES: set<string> := {"legacy_projection_identity"}
  const V2_CLAIM_COLUMNS: set<string> := {"canonical_key", "current_revision_id", "scope_json", "updated_at"}

  function Managed(): set<string> { V1_TABLES + V2_TABLES + SEARCH_TABLES + PROJECTION_TABLES }

  function SqlOf(m: Migration, dialect: Dialect): string {
    SplitterBundles.SqlFor(m.common, if dialect == Sqlite then m.sqliteSql else m.postgresSql)
  }

  function StatementsOf(e: Engine, m: Migration): seq<string> {
    if e.dialect == Sqlite then e.splitSqlite(SqlOf(m, Sqlite)) else PostgresSplitter.Split(SqlOf(m, Postgres))
  }

  function Ids(ms: seq<Migration>): seq<string> {
    seq(|ms|, i requires 0 <= i < |ms| => ms[i].id)
  }

  /** A loaded package: sorted by id, so no id occurs twice. */
  ghost predicate IsPackage(pkg: seq<Migration>) {
    forall i, j :: 0 <= i < j < |pkg| ==> pkg[i].id != pkg[j].id
  }

  function Recorded(history: History, m: Migration): History {
    if m.id in history then history else history[m.id := m.checksum]
  }

  /** The history that records exactly these migrations. */
  function HistoryOf(ms: seq<Migration>): History {
    if ms == [] then map[] else Recorded(HistoryOf(ms[..|ms| - 1]), ms[|ms| - 1])
  }

  function Tables(db: Db): set<string> {
    db.schema.tables + if db.history.Some? then {"schema_migrations"} else {}
  }

  function HistoryIn(db: Db): History {
    if db.history.Some? then db.history.value else map[]
  }

  // ---------------------------------------------------------------- validation

  predicate UnknownManagedTables(applied: History, tables: set<string>) {
    applied == map[] && "schema_meta" !in tables && tables * Managed() != {}
  }

  /** The tables and columns that the applied migrations promise are there. */
  predicate SchemaInvariants(applied: History, db: Db) {
    && ("0001_initial" in applied ==> V1_TABLES <= Tables(db))
    && ("0003_v2_evidence" in applied ==> V2_TABLES <= Tables(db) && V2_CLAIM_COLUMNS <= db.schema.claimColumns)
    && ("0004_v2_search" in applied ==> SEARCH_TABLES <= Tables(db))
    && ("0006_v2_legacy_projection_identity" in applied ==> PROJECTION_TABLES <= Tables(db))
  }

  ghost predicate IsPrefixHistory(pkg: seq<Migration>, applied: History, n: nat) {
    n <= |pkg| && applied == HistoryOf(pkg[..n])
  }

  /**
   * What the runner accepts: the history records, with their checksums, the first so many migrations of the package.
   */
  ghost predicate Accepted(pkg: seq<Migration>, applied: History, db: Db) {
    && !UnknownManagedTables(applied, Tables(db))
    && (exists n :: IsPrefixHistory(pkg, applied, n))
    && SchemaInvariants(applied, db)
  }

  // ---------------------------------------------------------------- one call

  function Select(pkg: seq<Migration>, target: Option<string>): Option<seq<Migration>> {
    if target == None then Some(pkg) else SelectUpTo(pkg, target.value)
  }

  function SelectUpTo(pkg: seq<Migration>, target: string): Option<seq<Migration>> {
    if pkg == [] then None
    else if pkg[0].id == target then Some([pkg[0]])
    else
      var rest := SelectUpTo(pkg[1..], target);
      if rest == None then None else Some([pkg[0]] + rest.value)
  }

  function NotIn(ms: seq<Migration>, applied: History): seq<Migration> {
    if ms == [] then []
    else (if ms[0].id in applied then [] else [ms[0]]) + NotIn(ms[1..], applied)
  }

  function In(ms: seq<Migration>, applied: History): seq<Migration> {
    if ms == [] then []
    else (if ms[0].id in applied then [ms[0]] else []) + In(ms[1..], applied)
  }

  function Transactional(ms: seq<Migration>, dialect: Dialect, yes: bool): seq<Migration> {
    if ms == [] then []
    else (if (dialect in ms[0].transactional) == yes then [ms[0]] else []) + Transactional(ms[1..], dialect, yes)
  }

  function RunStatements(e: Engine, statements: seq<string>, schema: Schema): Option<Schema> {
    if statements == [] then Some(schema)
    else
      var next := e.exec(statements[0], schema);
      if next == None then None else RunStatements(e, statements[1..], next.value)
  }

  /** Each migration's statements, and then its record. */
  function ApplyAll(e: Engine, ms: seq<Migration>, db: Db): Option<Db> {
    if ms == [] then Some(db)
    else
      var schema := RunStatements(e, StatementsOf(e, ms[0]), db.schema);
      if schema == None then None
      else ApplyAll(e, ms[1..], Db(schema.value, Some(Recorded(HistoryIn(db), ms[0]))))
  }

  function RecordFlat(pkg: seq<Migration>, history: History): History {
    if pkg == [] then history
    else RecordFlat(pkg[1..], if pkg[0].isFlat then Recorded(history, pkg[0]) else history)
  }

  /** The legacy branch that may commit on its way. */
  predicate NeedsUpgrade(db: Db) {
    HistoryIn(db) == map[] && "schema_meta" in db.schema.tables
    && db.schema.version.Some? && db.schema.version.value < LEGACY_SCHEMA_VERSION
  }

  /** A transaction in progress: what a rollback returns to, and what a commit would keep (none: it failed). */
  datatype Tx = Tx(fallback: Db, working: Option<Db>)

  /** The history table is created if missing; an unversioned database is recognised, adopted or refused. */
  ghost function Bootstrap(e: Engine, pkg: seq<Migration>, db: Db): Tx
  {
    var ensured := db.(history := Some(HistoryIn(db)));
    if HistoryIn(db) != map[] || Tables(ensured) == {"schema_migrations"} then Tx(db, Some(ensured))
    else if "schema_meta" in Tables(ensured) then
      if NeedsUpgrade(db) then
        (match e.upgrade(db.schema)
         case RaisesEarly => Tx(db, None)
         case RunsScripts(committed, working) =>
           Tx(if e.dialect == Sqlite then Db(committed, Some(map[])) else db,
              if working.Some? then Some(Db(working.value, Some(RecordFlat(pkg, map[])))) else None))
      else Tx(db, Some(Db(db.schema, Some(RecordFlat(pkg, map[])))))
    else if Tables(ensured) * Managed() != {} then Tx(db, None)
    else Tx(db, Some(ensured))
  }

  /** Everything before the selected migrations: both validations and the bootstrap between them. */
  ghost function Prepare(e: Engine, pkg: seq<Migration>, db: Db): Tx {
    var ensured := db.(history := Some(HistoryIn(db)));
    if !Accepted(pkg, HistoryIn(db), ensured) then Tx(db, None)
    else
      var tx := Bootstrap(e, pkg, db);
      if tx.working.Some? && !Accepted(pkg, HistoryIn(tx.working.value), tx.working.value)
      then Tx(tx.fallback, None)
      else tx
  }

  datatype Report = Report(dryRun: bool, current: bool, applied: seq<string>, adopted: set<string>,
                           pending: seq<string>, verified: seq<string>, skipped: seq<string>)

  datatype Outcome = Outcome(committed: Db, result: Result<Report>)

  ghost function Migrate(e: Engine, pkg: seq<Migration>, target: Option<string>, dryRun: bool, db: Db): Outcome {
    var selected := Select(pkg, target);
    if selected == None then Outcome(db, Err("unknown migration target"))
    else
      var tx := Prepare(e, pkg, db);
      if tx.working == None then Outcome(tx.fallback, Err("migration history not accepted"))
      else
        var applied := HistoryIn(tx.working.value);
        var pending := NotIn(selected.value, applied);
        var skipped := Transactional(pending, e.dialect, false);
        var executable := Transactional(pending, e.dialect, true);
        var adopted := applied.Keys - HistoryIn(db).Keys;
        if skipped != [] && !dryRun then
          Outcome(tx.fallback, Err("non-transactional migration requires explicit operator recovery"))
        else
          var done := ApplyAll(e, executable, tx.working.value);
          if done == None then Outcome(tx.fallback, Err("statement failed"))
          else if dryRun then
            Outcome(tx.fallback, Ok(Report(
                true, false, [], adopted, Ids(pending), Ids(In(selected.value, applied)), Ids(skipped))))
          else
            Outcome(done.value,
                    Ok(Report(false, executable == [] && adopted == {}, Ids(executable), adopted,
                              Ids(NotIn(selected.value, HistoryIn(done.value))), Ids(In(selected.value, applied)), [])))
  }
}
