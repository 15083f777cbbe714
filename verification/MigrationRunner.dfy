/** `MigrationRunner` of src/research_registry/migration_runner.py over a connection with one transaction. */
module MigrationRunners {
  import opened PyText
  import opened Migrations
  import opened MigrationLaws

  /** A database connection: what is committed, and what the open transaction sees. */
  class Connection {
    var committed: Db
    var working: Db

    constructor (db: Db)
      ensures committed == db && working == db
    {
      committed, working := db, db;
    }

    method Commit()
      modifies this`committed
      ensures committed == working
    {
      committed := working;
    }

    method Rollback()
      modifies this`working
      ensures working == committed
    {
      working := committed;
    }

    method Execute(e: Engine, statement: string) returns (ok: bool)
      modifies this`working
      ensures var next := e.exec(statement, old(working).schema);
              ok == next.Some? && working == if ok then old(working).(schema := next.value) else old(working)
    {
      var next := e.exec(statement, working.schema);
      ok := next.Some?;
      if ok {
        working := working.(schema := next.value);
      }
    }
  }

  class MigrationRunner {
    const engine: Engine
    const migrations: seq<Migration>

    constructor (e: Engine, pkg: seq<Migration>)
      ensures engine == e && migrations == pkg
    {
      engine, migrations := e, pkg;
    }

    method SelectMigrations(target: Option<string>) returns (selected: Option<seq<Migration>>)
      ensures selected == Select(migrations, target)
    {
      if target == None {
        return Some(migrations);
      }
      assert migrations[0..] == migrations && forall rest: seq<Migration> :: migrations[..0] + rest == rest;
      for i := 0 to |migrations|
        invariant SelectUpTo(migrations, target.value)
               == var rest := SelectUpTo(migrations[i..], target.value);
                  if rest == None then None else Some(migrations[..i] + rest.value)
      {
        if migrations[i].id == target.value {
          assert migrations[..i] + [migrations[i]] == migrations[..i + 1];
          return Some(migrations[..i + 1]);
        }
        assert migrations[i..][1..] == migrations[i + 1..];
        assert forall rest: seq<Migration> :: migrations[..i] + ([migrations[i]] + rest) == migrations[..i + 1] + rest;
      }
      assert migrations[|migrations|..] == [];
      selected := None;
    }

    method EnsureSchemaMigrationsTable(conn: Connection)
      modifies conn`working
      ensures conn.working == old(conn.working).(history := Some(HistoryIn(old(conn.working))))
    {
      if conn.working.history == None {
        conn.working := conn.working.(history := Some(map[]));
      }
    }

    method RecordMigration(conn: Connection, m: Migration)
      modifies conn`working
      ensures conn.working == old(conn.working).(history := Some(Recorded(HistoryIn(old(conn.working)), m)))
    {
      var history := HistoryIn(conn.working);
      conn.working := conn.working.(history := Some(if m.id in history then history else history[m.id := m.checksum]));
    }

    method RecordFlatMigrations(conn: Connection)
      requires conn.working.history.Some?
      modifies conn`working
      ensures conn.working == old(conn.working).(history := Some(RecordFlat(migrations, HistoryIn(old(conn.working)))))
    {
      for i := 0 to |migrations|
        invariant conn.working.history.Some? && conn.working.schema == old(conn.working).schema
        invariant RecordFlat(migrations, HistoryIn(old(conn.working)))
            == RecordFlat(migrations[i..], HistoryIn(conn.working))
      {
        assert migrations[i..][1..] == migrations[i + 1..];
        if migrations[i].isFlat {
          RecordMigration(conn, migrations[i]);
        }
      }
      assert migrations[|migrations|..] == [];
    }

    /** The whole decision of the validation scan is: checksum-matching prefix of the package, on a schema that fits. */
    method ValidateApplied(applied: History, db: Db) returns (ok: bool)
      requires IsPackage(migrations)
      ensures ok <==> Accepted(migrations, applied, db)
    {
      hide HistoryOf, UnknownManagedTables, SchemaInvariants, Tables, IsPrefixHistory;
      if UnknownManagedTables(applied, Tables(db)) {
        return false;
      }
      var unchecked := applied.Keys;
      while unchecked != {}
        invariant unchecked <= applied.Keys
        invariant forall id :: id in applied && id !in unchecked ==> Matches(migrations, applied, id)
        decreases unchecked
      {
        var id :| id in unchecked;
        if !Matches(migrations, applied, id) {
          PrefixMatches(migrations, applied);
          return false;
        }
        unchecked := unchecked - {id};
      }
      var seenPending := false;
      ghost var n: nat := |migrations|;
      for i := 0 to |migrations|
        invariant n <= |migrations| && seenPending == (n < i) && (!seenPending ==> n == |migrations|)
        invariant forall j :: 0 <= j < i ==> (migrations[j].id in applied <==> j < n)
      {
        if migrations[i].id !in applied {
          if !seenPending {
            n := i;
          }
          seenPending := true;
        } else if seenPending {
          GapIsNoPrefix(migrations, applied, n, i);
          return false;
        }
      }
      MatchingPrefix(migrations, applied, n);
      ok := SchemaInvariants(applied, db);
    }

    /** The upgrade of a legacy schema, unless it raises early, runs scripts; on SQLite they commit the transaction. */
    method UpgradeLegacy(conn: Connection) returns (ok: bool)
      requires HistoryIn(conn.working) == map[] && conn.working.history.Some?
      modifies conn
      ensures var up := engine.upgrade(old(conn.working).schema);
              && ok == (up.RunsScripts? && up.working.Some?)
              && conn.committed == (
                   if up.RunsScripts? && engine.dialect == Sqlite then Db(up.committed, Some(map[]))
                   else old(conn.committed))
              && (ok ==> conn.working == Db(up.working.value, Some(map[])))
    {
      var up := engine.upgrade(conn.working.schema);
      if up.RaisesEarly? {
        return false;
      }
      conn.working := conn.working.(schema := up.committed);
      if engine.dialect == Sqlite {
        conn.Commit();
      }
      ok := up.working.Some?;
      if ok {
        conn.working := conn.working.(schema := up.working.value);
      }
    }

    method BootstrapSchema(conn: Connection) returns (ok: bool)
      requires HistoryIn(conn.committed) == map[]
      requires conn.working == conn.committed.(history := Some(HistoryIn(conn.committed)))
      modifies conn
      ensures Tx(conn.committed, if ok then Some(conn.working) else None)
          == Bootstrap(engine, migrations, old(conn.committed))
    {
      var tables := Tables(conn.working);
      if tables == {"schema_migrations"} {
        return true;
      }
      if "schema_meta" in tables {
        var version := conn.working.schema.version;
        if version.Some? && version.value < LEGACY_SCHEMA_VERSION {
          ok := UpgradeLegacy(conn);
          if !ok {
            return false;
          }
        }
        RecordFlatMigrations(conn);
        return true;
      }
      ok := tables * Managed() == {};
    }

    method ApplyMigration(conn: Connection, m: Migration) returns (ok: bool)
      modifies conn`working
      ensures var schema := RunStatements(engine, StatementsOf(engine, m), old(conn.working).schema);
              ok == schema.Some? && (ok ==> conn.working == old(conn.working).(schema := schema.value))
    {
      var statements := StatementsOf(engine, m);
      for i := 0 to |statements|
        invariant conn.working.history == old(conn.working).history
        invariant RunStatements(engine, statements, old(conn.working).schema)
               == RunStatements(engine, statements[i..], conn.working.schema)
      {
        assert statements[i..][1..] == statements[i + 1..];
        var executed := conn.Execute(engine, statements[i]);
        if !executed {
          return false;
        }
      }
      assert statements[|statements|..] == [];
      ok := true;
    }

    method ApplyMigrations(conn: Connection, executable: seq<Migration>) returns (ok: bool)
      modifies conn`working
      ensures var done := ApplyAll(engine, executable, old(conn.working));
              ok == done.Some? && (ok ==> conn.working == done.value)
    {
      for i := 0 to |executable|
        invariant ApplyAll(engine, executable, old(conn.working)) == ApplyAll(engine, executable[i..], conn.working)
      {
        assert executable[i..][1..] == executable[i + 1..];
        var applied := ApplyMigration(conn, executable[i]);
        if !applied {
          return false;
        }
        RecordMigration(conn, executable[i]);
      }
      assert executable[|executable|..] == [];
      ok := true;
    }

    /** Everything before the selected migrations, inside the open transaction. */
    method PrepareTransaction(conn: Connection) returns (ok: bool)
      requires IsPackage(migrations) && conn.working == conn.committed
      modifies conn
      ensures Tx(conn.committed, if ok then Some(conn.working) else None)
          == Prepare(engine, migrations, old(conn.committed))
    {
      hide HistoryOf, SchemaInvariants, UnknownManagedTables, Accepted;
      EnsureSchemaMigrationsTable(conn);
      var appliedBefore := HistoryIn(conn.working);
      ok := ValidateApplied(appliedBefore, conn.working);
      if !ok {
        return;
      }
      if appliedBefore == map[] {
        ok := BootstrapSchema(conn);
        if !ok {
          return;
        }
      }
      ok := ValidateApplied(HistoryIn(conn.working), conn.working);
    }

    method MigrateDatabase(conn: Connection, target: Option<string>, dryRun: bool) returns (result: Result<Report>)
      requires IsPackage(migrations) && conn.working == conn.committed
      modifies conn
      ensures Outcome(conn.committed, result) == Migrate(engine, migrations, target, dryRun, old(conn.committed))
      ensures conn.working == conn.committed
    {
      hide Prepare, ApplyAll, NotIn, In, Transactional, Select, IsPackage;
      var selected := SelectMigrations(target);
      if selected == None {
        return Err("unknown migration target");
      }
      var before := HistoryIn(conn.committed);
      var prepared := PrepareTransaction(conn);
      if !prepared {
        conn.Rollback();
        return Err("migration history not accepted");
      }
      var applied := HistoryIn(conn.working);
      var adopted := applied.Keys - before.Keys;
      var pending := NotIn(selected.value, applied);
      var skipped := Transactional(pending, engine.dialect, false);
      if skipped != [] && !dryRun {
        conn.Rollback();
        return Err("non-transactional migration requires explicit operator recovery");
      }
      var executable := Transactional(pending, engine.dialect, true);
      var verified := Ids(In(selected.value, applied));
      var executed := ApplyMigrations(conn, executable);
      if !executed {
        conn.Rollback();
        return Err("statement failed");
      }
      if dryRun {
        conn.Rollback();
        return Ok(Report(true, false, [], adopted, Ids(pending), verified, Ids(skipped)));
      }
      conn.Commit();
      var left := Ids(NotIn(selected.value, HistoryIn(conn.working)));
      result := Ok(Report(false, executable == [] && adopted == {}, Ids(executable), adopted, left, verified, []));
    }
  }
}
