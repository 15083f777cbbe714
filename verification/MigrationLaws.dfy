/** What the migration runner promises over single calls and over whole sequences of calls. */
module MigrationLaws {
  import opened PyText
  import opened Migrations

  // ---------------------------------------------------------------- prefixes of the package

  lemma {:induction false} HistoryHolds(ms: seq<Migration>, i: nat)
    requires IsPackage(ms) && i < |ms|
    ensures ms[i].id in HistoryOf(ms) && HistoryOf(ms)[ms[i].id] == ms[i].checksum
  {
    var front := ms[..|ms| - 1];
    if i < |ms| - 1 {
      HistoryHolds(front, i);
    } else {
      forall j | 0 <= j < |front| ensures front[j].id != ms[i].id { }
      HistoryHoldsOnly(front, ms[i].id);
    }
  }

  lemma {:induction false} HistoryHoldsOnly(ms: seq<Migration>, id: string)
    ensures id in HistoryOf(ms) <==> exists j :: 0 <= j < |ms| && ms[j].id == id
  {
    if ms != [] {
      var front := ms[..|ms| - 1];
      HistoryHoldsOnly(front, id);
      assert forall j :: 0 <= j < |front| ==> front[j] == ms[j];
      if ms[|ms| - 1].id == id {
        assert ms[|ms| - 1].id == id;
      }
    }
  }

  /** Which migrations of the package a prefix history records. */
  lemma PrefixRecords(pkg: seq<Migration>, n: nat, i: nat)
    requires IsPackage(pkg) && n <= |pkg| && i < |pkg|
    ensures pkg[i].id in HistoryOf(pkg[..n]) <==> i < n
    ensures i < n ==> HistoryOf(pkg[..n])[pkg[i].id] == pkg[i].checksum
  {
    HistoryHoldsOnly(pkg[..n], pkg[i].id);
    if i < n {
      HistoryHolds(pkg[..n], i);
    }
  }

  lemma PrefixIsUnique(pkg: seq<Migration>, applied: History, m: nat, n: nat)
    requires IsPackage(pkg) && IsPrefixHistory(pkg, applied, m) && IsPrefixHistory(pkg, applied, n)
    ensures m == n
  {
    if m < n {
      PrefixRecords(pkg, m, m);
      PrefixRecords(pkg, n, m);
    } else if n < m {
      PrefixRecords(pkg, m, n);
      PrefixRecords(pkg, n, n);
    }
  }

  lemma NextPrefix(pkg: seq<Migration>, n: nat)
    requires IsPackage(pkg) && n < |pkg|
    ensures HistoryOf(pkg[..n + 1]) == HistoryOf(pkg[..n])[pkg[n].id := pkg[n].checksum]
        == Recorded(HistoryOf(pkg[..n]), pkg[n])
  {
    assert pkg[..n + 1][..n] == pkg[..n];
    PrefixRecords(pkg, n, n);
  }

  lemma {:induction false} SelectIsPrefix(pkg: seq<Migration>, target: string) returns (k: nat)
    requires SelectUpTo(pkg, target).Some?
    ensures 0 < k <= |pkg| && SelectUpTo(pkg, target).value == pkg[..k] && pkg[k - 1].id == target
  {
    if pkg[0].id == target {
      k := 1;
    } else {
      var rest := SelectIsPrefix(pkg[1..], target);
      k := rest + 1;
      assert pkg[..k] == [pkg[0]] + pkg[1..][..rest];
    }
  }

  function Min(a: nat, b: nat): nat { if a < b then a else b }

  lemma {:induction false} BeyondThePrefix(pkg: seq<Migration>, n: nat, j: nat, k: nat)
    requires IsPackage(pkg) && n <= j <= k <= |pkg|
    ensures NotIn(pkg[j..k], HistoryOf(pkg[..n])) == pkg[j..k] && In(pkg[j..k], HistoryOf(pkg[..n])) == []
    decreases k - j
  {
    hide HistoryOf, IsPackage;
    if j < k {
      BeyondThePrefix(pkg, n, j + 1, k);
      PrefixRecords(pkg, n, j);
      assert pkg[j..k] == [pkg[j]] + pkg[j + 1..k] && pkg[j..k][1..] == pkg[j + 1..k];
    }
  }

  lemma {:induction false} WithinThePrefix(pkg: seq<Migration>, n: nat, j: nat, k: nat)
    requires IsPackage(pkg) && j <= k <= n <= |pkg|
    ensures NotIn(pkg[j..k], HistoryOf(pkg[..n])) == [] && In(pkg[j..k], HistoryOf(pkg[..n])) == pkg[j..k]
    decreases k - j
  {
    hide HistoryOf, IsPackage;
    if j < k {
      WithinThePrefix(pkg, n, j + 1, k);
      PrefixRecords(pkg, n, j);
      assert pkg[j..k] == [pkg[j]] + pkg[j + 1..k] && pkg[j..k][1..] == pkg[j + 1..k];
    }
  }

  lemma {:induction false} PartsAppend(a: seq<Migration>, b: seq<Migration>, applied: History)
    ensures NotIn(a + b, applied) == NotIn(a, applied) + NotIn(b, applied)
    ensures In(a + b, applied) == In(a, applied) + In(b, applied)
  {
    if a == [] {
      assert a + b == b;
    } else {
      var rest := a[1..];
      assert (a + b)[1..] == rest + b && (a + b)[0] == a[0];
      PartsAppend(rest, b, applied);
      var known := a[0].id in applied;
      var out, kept := if known then [] else [a[0]], if known then [a[0]] else [];
      assert out + (NotIn(rest, applied) + NotIn(b, applied)) == out + NotIn(rest, applied) + NotIn(b, applied);
      assert kept + (In(rest, applied) + In(b, applied)) == kept + In(rest, applied) + In(b, applied);
    }
  }

  /** Against a prefix history, the selected migrations fall into those verified and, after them, those pending. */
  lemma SelectedSplits(pkg: seq<Migration>, n: nat, k: nat)
    requires IsPackage(pkg) && n <= |pkg| && k <= |pkg|
    ensures NotIn(pkg[..k], HistoryOf(pkg[..n])) == pkg[Min(n, k)..k]
    ensures In(pkg[..k], HistoryOf(pkg[..n])) == pkg[..Min(n, k)]
  {
    hide HistoryOf, IsPackage, In, NotIn;
    var m := Min(n, k);
    WithinThePrefix(pkg, n, 0, m);
    if n <= k {
      BeyondThePrefix(pkg, n, m, k);
    } else {
      assert pkg[m..k] == [];
      NothingInNothing(HistoryOf(pkg[..n]));
    }
    assert pkg[..k] == pkg[0..m] + pkg[m..k];
    PartsAppend(pkg[0..m], pkg[m..k], HistoryOf(pkg[..n]));
  }

  lemma NothingInNothing(applied: History)
    ensures NotIn([], applied) == [] && In([], applied) == []
  {
  }

  lemma {:induction false} AllTransactional(ms: seq<Migration>, dialect: Dialect)
    requires Transactional(ms, dialect, false) == []
    ensures Transactional(ms, dialect, true) == ms
  {
    if ms != [] {
      AllTransactional(ms[1..], dialect);
      assert ms == [ms[0]] + ms[1..];
    }
  }

  lemma {:induction false} TransactionalAppend(a: seq<Migration>, b: seq<Migration>, dialect: Dialect, yes: bool)
    ensures Transactional(a + b, dialect, yes) == Transactional(a, dialect, yes) + Transactional(b, dialect, yes)
  {
    if a == [] {
      assert a + b == b;
    } else {
      var rest := a[1..];
      assert (a + b)[1..] == rest + b && (a + b)[0] == a[0];
      TransactionalAppend(rest, b, dialect, yes);
      var first := if (dialect in a[0].transactional) == yes then [a[0]] else [];
      assert first + (Transactional(rest, dialect, yes) + Transactional(b, dialect, yes))
          == first + Transactional(rest, dialect, yes) + Transactional(b, dialect, yes);
    }
  }

  lemma {:induction false} ApplyAppend(e: Engine, a: seq<Migration>, b: seq<Migration>, db: Db)
    ensures ApplyAll(e, a + b, db)
         == var mid := ApplyAll(e, a, db); if mid == None then None else ApplyAll(e, b, mid.value)
  {
    if a == [] {
      assert a + b == b;
    } else {
      assert (a + b)[1..] == a[1..] + b;
      var schema := RunStatements(e, StatementsOf(e, a[0]), db.schema);
      if schema.Some? {
        ApplyAppend(e, a[1..], b, Db(schema.value, Some(Recorded(HistoryIn(db), a[0]))));
      }
    }
  }

  /** Applying the next migrations of the package extends the recorded prefix by them. */
  lemma {:induction false} ApplyExtendsPrefix(e: Engine, pkg: seq<Migration>, n: nat, k: nat, db: Db)
    requires IsPackage(pkg) && n <= k <= |pkg| && IsPrefixHistory(pkg, HistoryIn(db), n)
    requires ApplyAll(e, pkg[n..k], db).Some?
    ensures IsPrefixHistory(pkg, HistoryIn(ApplyAll(e, pkg[n..k], db).value), k)
    decreases k - n
  {
    if n < k {
      assert pkg[n..k][0] == pkg[n] && pkg[n..k][1..] == pkg[n + 1..k];
      NextPrefix(pkg, n);
      var schema := RunStatements(e, StatementsOf(e, pkg[n]), db.schema);
      ApplyExtendsPrefix(e, pkg, n + 1, k, Db(schema.value, Some(Recorded(HistoryIn(db), pkg[n]))));
    }
  }

  // ---------------------------------------------------------------- one call, laid out

  /** A call whose preparation succeeded works on a prefix of `n` recorded and `k` selected migrations. */
  ghost predicate Laid(e: Engine, pkg: seq<Migration>, target: Option<string>, db: Db, n: nat, k: nat) {
    && n <= |pkg| && k <= |pkg|
    && Prepare(e, pkg, db).working.Some?
    && Select(pkg, target) == Some(pkg[..k])
    && var applied := HistoryIn(Prepare(e, pkg, db).working.value);
       && IsPrefixHistory(pkg, applied, n)
       && NotIn(pkg[..k], applied) == pkg[Min(n, k)..k]
       && In(pkg[..k], applied) == pkg[..Min(n, k)]
  }

  lemma {:induction false} PreparedIsAccepted(e: Engine, pkg: seq<Migration>, db: Db)
    requires Prepare(e, pkg, db).working.Some?
    ensures var w := Prepare(e, pkg, db).working.value; w.history.Some? && Accepted(pkg, HistoryIn(w), w)
  {
  }

  lemma {:induction false} LayOut(e: Engine, pkg: seq<Migration>, target: Option<string>, db: Db)
      returns (n: nat, k: nat)
    requires IsPackage(pkg) && Select(pkg, target).Some? && Prepare(e, pkg, db).working.Some?
    ensures Laid(e, pkg, target, db, n, k) && (pkg != [] ==> k > 0)
  {
    hide Prepare;
    PreparedIsAccepted(e, pkg, db);
    var applied := HistoryIn(Prepare(e, pkg, db).working.value);
    n :| IsPrefixHistory(pkg, applied, n);
    if target == None {
      k := |pkg|;
      assert pkg[..k] == pkg;
    } else {
      k := SelectIsPrefix(pkg, target.value);
    }
    SelectedSplits(pkg, n, k);
  }

  /** What a call comes to, once it is laid out. */
  lemma {:induction false} LaidOutcome(e: Engine, pkg: seq<Migration>, target: Option<string>, dryRun: bool, db: Db,
      n: nat, k: nat)
    requires IsPackage(pkg) && Laid(e, pkg, target, db, n, k)
    ensures var tx, pending := Prepare(e, pkg, db), pkg[Min(n, k)..k];
            var skipped := Transactional(pending, e.dialect, false);
            var done := ApplyAll(
              e, if skipped == [] then pending else Transactional(pending, e.dialect, true), tx.working.value);
            var o := Migrate(e, pkg, target, dryRun, db);
            && (o.result.Ok? <==> (skipped == [] || dryRun) && done.Some?)
            && (o.result.Err? || dryRun ==> o.committed == tx.fallback)
            && (o.result.Ok? && !dryRun ==>
                  && o.committed == done.value && IsPrefixHistory(pkg, HistoryIn(done.value), if n < k then k else n)
                  && o.result.value.applied == Ids(pending) && o.result.value.verified == Ids(pkg[..Min(n, k)])
                  && o.result.value.pending == [] && o.result.value.skipped == [])
            && (o.result.Ok? && dryRun ==>
                  && o.result.value.pending == Ids(pending) && o.result.value.verified == Ids(pkg[..Min(n, k)])
                  && o.result.value.skipped == Ids(skipped) && o.result.value.applied == [])
  {
    hide Prepare, ApplyAll, NotIn, In, Transactional, HistoryOf, Select, IsPrefixHistory, HistoryIn;
    var w, pending := Prepare(e, pkg, db).working.value, pkg[Min(n, k)..k];
    if Transactional(pending, e.dialect, false) == [] {
      AllTransactional(pending, e.dialect);
      if ApplyAll(e, pending, w).Some? {
        NothingPendingAfter(e, pkg, n, k, w);
      }
    }
    assert Ids([]) == [];
  }

  lemma {:induction false} NothingPendingAfter(e: Engine, pkg: seq<Migration>, n: nat, k: nat, w: Db)
    requires IsPackage(pkg) && n <= |pkg| && k <= |pkg| && IsPrefixHistory(pkg, HistoryIn(w), n)
    requires ApplyAll(e, pkg[Min(n, k)..k], w).Some?
    ensures var done := ApplyAll(e, pkg[Min(n, k)..k], w).value;
            IsPrefixHistory(pkg, HistoryIn(done), if n < k then k else n) && NotIn(pkg[..k], HistoryIn(done)) == []
  {
    if n < k {
      ApplyExtendsPrefix(e, pkg, n, k, w);
    } else {
      assert pkg[k..k] == [];
    }
    SelectedSplits(pkg, if n < k then k else n, k);
    assert pkg[k..k] == [];
  }

  // ---------------------------------------------------------------- validation

  predicate Matches(pkg: seq<Migration>, applied: History, id: string)
    requires id in applied
  {
    exists i :: 0 <= i < |pkg| && pkg[i].id == id && pkg[i].checksum == applied[id]
  }

  lemma PrefixMatches(pkg: seq<Migration>, applied: History)
    requires IsPackage(pkg)
    ensures forall n :: IsPrefixHistory(pkg, applied, n) ==> forall id :: id in applied ==> Matches(pkg, applied, id)
  {
    forall n: nat, id | IsPrefixHistory(pkg, applied, n) && id in applied ensures Matches(pkg, applied, id) {
      HistoryHoldsOnly(pkg[..n], id);
      var j :| 0 <= j < n && pkg[..n][j].id == id;
      HistoryHolds(pkg[..n], j);
      assert pkg[j].id == id;
    }
  }

  lemma GapIsNoPrefix(pkg: seq<Migration>, applied: History, gap: nat, i: nat)
    requires IsPackage(pkg) && gap < i < |pkg| && pkg[gap].id !in applied && pkg[i].id in applied
    ensures forall n :: !IsPrefixHistory(pkg, applied, n)
  {
    forall n: nat | n <= |pkg| ensures applied != HistoryOf(pkg[..n]) {
      PrefixRecords(pkg, n, gap);
      PrefixRecords(pkg, n, i);
    }
  }

  lemma MatchingPrefix(pkg: seq<Migration>, applied: History, n: nat)
    requires IsPackage(pkg) && n <= |pkg|
    requires forall id :: id in applied ==> Matches(pkg, applied, id)
    requires forall j :: 0 <= j < |pkg| ==> (pkg[j].id in applied <==> j < n)
    ensures IsPrefixHistory(pkg, applied, n)
  {
    var recorded := HistoryOf(pkg[..n]);
    forall id ensures id in applied <==> id in recorded {
      HistoryHoldsOnly(pkg[..n], id);
      if id in applied {
        var i :| 0 <= i < |pkg| && pkg[i].id == id;
        PrefixRecords(pkg, n, i);
      }
      if id in recorded {
        var j :| 0 <= j < n && pkg[..n][j].id == id;
        assert pkg[j].id in applied;
      }
    }
    forall id | id in applied ensures applied[id] == recorded[id] {
      var i :| 0 <= i < |pkg| && pkg[i].id == id && pkg[i].checksum == applied[id];
      PrefixRecords(pkg, n, i);
    }
  }

  // ---------------------------------------------------------------- single calls

  /** A successful migrate accounts for every selected migration, in order, and leaves none pending. */
  lemma SuccessAccountsForAll(e: Engine, pkg: seq<Migration>, target: Option<string>, db: Db)
    requires IsPackage(pkg) && Migrate(e, pkg, target, false, db).result.Ok?
    ensures var r := Migrate(e, pkg, target, false, db).result.value;
            Select(pkg, target).Some? && r.verified + r.applied == Ids(Select(pkg, target).value) && r.pending == []
  {
    hide Prepare, ApplyAll, NotIn, In, Transactional, HistoryOf, IsPrefixHistory, HistoryIn;
    var n, k := LayOut(e, pkg, target, db);
    LaidOutcome(e, pkg, target, false, db, n, k);
    hide Migrate;
    var m := Min(n, k);
    assert Ids(pkg[..m]) + Ids(pkg[m..k]) == Ids(pkg[..k]);
  }

  /** The legacy branch on SQLite, where the upgrade's scripts, once it gets to them, commit the open transaction. */
  predicate CommitsOnTheWay(e: Engine, db: Db) {
    NeedsUpgrade(db) && e.dialect == Sqlite && e.upgrade(db.schema).RunsScripts?
  }

  /**
   * What a rollback returns to: the state before the call, but for that branch, where it is what the upgrade committed.
   */
  ghost function RolledBack(e: Engine, db: Db): Db {
    if CommitsOnTheWay(e, db) then Db(e.upgrade(db.schema).committed, Some(map[])) else db
  }

  lemma FallbackIsRolledBack(e: Engine, pkg: seq<Migration>, db: Db)
    ensures Prepare(e, pkg, db).fallback == RolledBack(e, db)
  {
    hide HistoryOf;
    if NeedsUpgrade(db) {
      assert pkg[..0] == [] && HistoryOf([]) == map[] by {
        NoMigrationsNoHistory();
      }
      assert IsPrefixHistory(pkg, map[], 0);
      assert Accepted(pkg, HistoryIn(db), db.(history := Some(HistoryIn(db))));
    }
  }

  lemma NoMigrationsNoHistory()
    ensures HistoryOf([]) == map[]
  {
  }

  /**
   * A call that fails, and a dry run, leave the committed state as it was exactly outside the branch that commits, or
   * where what the upgrade committed there is the state before; an unknown target is refused before any of it.
   */
  lemma FailureAndDryRunWriteNothing(e: Engine, pkg: seq<Migration>, target: Option<string>, dryRun: bool, db: Db)
    ensures var o := Migrate(e, pkg, target, dryRun, db);
            o.result.Err? || dryRun ==>
              (o.committed == db <==> Select(pkg, target) == None || !CommitsOnTheWay(e, db)
                                      || db == Db(e.upgrade(db.schema).committed, Some(map[])))
  {
    hide Prepare;
    FallbackIsRolledBack(e, pkg, db);
  }

  /**
   * On a database without a history table, the dry run of a known target changes the committed database exactly in the
   * branch that commits, and leaves what the upgrade committed.
   */
  lemma DryRunMayCommitUpgrade(e: Engine, pkg: seq<Migration>, target: Option<string>, db: Db)
    requires db.history == None && Select(pkg, target).Some?
    ensures var left := Migrate(e, pkg, target, true, db).committed;
            && (left != db <==> CommitsOnTheWay(e, db))
            && (left != db ==> left == Db(e.upgrade(db.schema).committed, Some(map[])))
  {
    hide Prepare;
    FallbackIsRolledBack(e, pkg, db);
  }

  /**
   * What a caller can check before the call: where no upgrade is needed, or not on SQLite, a dry run of any database
   * leaves it as it was. Where one is, a dry run that goes through has changed a database without a history table.
   */
  lemma DryRunGuard(e: Engine, pkg: seq<Migration>, target: Option<string>, db: Db)
    ensures var trial := Migrate(e, pkg, target, true, db);
            && (!(NeedsUpgrade(db) && e.dialect == Sqlite) ==> trial.committed == db)
            && (trial.result.Ok? && db.history == None ==>
                  (trial.committed != db <==> NeedsUpgrade(db) && e.dialect == Sqlite))
  {
    hide Prepare;
    FallbackIsRolledBack(e, pkg, db);
    if Migrate(e, pkg, target, true, db).result.Ok? && NeedsUpgrade(db) {
      PreparedMeansUpgraded(e, pkg, db);
    }
  }

  lemma PreparedMeansUpgraded(e: Engine, pkg: seq<Migration>, db: Db)
    requires Prepare(e, pkg, db).working.Some? && NeedsUpgrade(db)
    ensures e.upgrade(db.schema).RunsScripts?
  {
    hide Accepted;
  }

  /**
   * A legacy file that holds the version table and nothing else: the upgrade's first statement has no table to alter
   * and raises, and whatever call was made, all of it is rolled back, the history table included.
   */
  lemma EarlyFailureIsRolledBack(e: Engine, pkg: seq<Migration>, target: Option<string>, dryRun: bool,
                                 content: seq<string>)
    requires e.dialect == Sqlite && e.upgrade(Schema({"schema_meta"}, {}, Some(3), content)).RaisesEarly?
    ensures var db := Db(Schema({"schema_meta"}, {}, Some(3), content), None);
            && NeedsUpgrade(db) && !CommitsOnTheWay(e, db)
            && Migrate(e, pkg, target, dryRun, db).result.Err?
            && Migrate(e, pkg, target, dryRun, db).committed == db
  {
    var db := Db(Schema({"schema_meta"}, {}, Some(3), content), None);
    FallbackIsRolledBack(e, pkg, db);
    assert Prepare(e, pkg, db).working == None by {
      hide Accepted;
    }
    hide Prepare;
  }

  /**
   * A dry run tells what the real run would do. If it skips nothing, the real run succeeds exactly when it does and
   * applies what it called pending; if it skips something, the real run is refused. A refused run leaves what the dry
   * run leaves: the state before, outside the branch that commits.
   */
  lemma DryRunIsFaithful(e: Engine, pkg: seq<Migration>, target: Option<string>, db: Db)
    requires IsPackage(pkg)
    ensures var trial, actual := Migrate(e, pkg, target, true, db), Migrate(e, pkg, target, false, db);
            && (trial.result.Ok? && trial.result.value.skipped == [] ==>
                  && actual.result.Ok? && actual.result.value.applied == trial.result.value.pending
                  && actual.result.value.verified == trial.result.value.verified
                  && actual.result.value.adopted == trial.result.value.adopted)
            && (trial.result.Ok? && trial.result.value.skipped != [] ==> actual.result.Err?)
            && (actual.result.Ok? ==> trial.result.Ok? && trial.result.value.skipped == [])
            && (actual.result.Err? ==> actual.committed == trial.committed)
            && (!CommitsOnTheWay(e, db) ==> trial.committed == db)
  {
    hide Prepare, ApplyAll, Accepted;
    FallbackIsRolledBack(e, pkg, db);
    if Select(pkg, target).Some? && Prepare(e, pkg, db).working.Some? {
      var n, k := LayOut(e, pkg, target, db);
      LaidOutcome(e, pkg, target, true, db, n, k);
      LaidOutcome(e, pkg, target, false, db, n, k);
      AdoptedAlike(e, pkg, target, db);
    }
  }

  lemma AdoptedAlike(e: Engine, pkg: seq<Migration>, target: Option<string>, db: Db)
    ensures var trial, actual := Migrate(e, pkg, target, true, db), Migrate(e, pkg, target, false, db);
            trial.result.Ok? && actual.result.Ok? ==> actual.result.value.adopted == trial.result.value.adopted
  {
    hide Prepare, ApplyAll;
  }

  // ---------------------------------------------------------------- sequences of calls

  ghost predicate SubHistory(a: History, b: History) {
    forall id :: id in a ==> id in b && b[id] == a[id]
  }

  lemma PrefixGrows(pkg: seq<Migration>, m: nat, n: nat)
    requires IsPackage(pkg) && m <= n <= |pkg|
    ensures SubHistory(HistoryOf(pkg[..m]), HistoryOf(pkg[..n]))
  {
    forall id | id in HistoryOf(pkg[..m])
      ensures id in HistoryOf(pkg[..n]) && HistoryOf(pkg[..n])[id] == HistoryOf(pkg[..m])[id]
    {
      HistoryHoldsOnly(pkg[..m], id);
      var j :| 0 <= j < m && pkg[..m][j].id == id;
      PrefixRecords(pkg, m, j);
      PrefixRecords(pkg, n, j);
    }
  }

  /** A database with a history is not bootstrapped: it is validated and taken as it is. */
  lemma VersionedIsTakenAsIs(e: Engine, pkg: seq<Migration>, db: Db)
    requires HistoryIn(db) != map[]
    ensures var tx := Prepare(e, pkg, db); tx.fallback == db && (tx.working.Some? ==> tx.working.value == db)
  {
  }

  lemma UnversionedFallback(e: Engine, pkg: seq<Migration>, db: Db)
    requires HistoryIn(db) == map[]
    ensures HistoryIn(Prepare(e, pkg, db).fallback) == map[]
  {
  }

  /** One call, whatever its outcome: no recorded checksum is lost or changed, and a new history is a prefix. */
  lemma {:induction false} CallGrowsHistory(e: Engine, pkg: seq<Migration>, target: Option<string>, dryRun: bool,
      db: Db)
    requires IsPackage(pkg)
    ensures var before, after := HistoryIn(db), HistoryIn(Migrate(e, pkg, target, dryRun, db).committed);
            SubHistory(before, after) && (after == before || exists n :: IsPrefixHistory(pkg, after, n))
  {
    var o := Migrate(e, pkg, target, dryRun, db);
    hide Prepare, ApplyAll, NotIn, In, Transactional, HistoryOf, Accepted, Laid, IsPackage;
    var tx := Prepare(e, pkg, db);
    if HistoryIn(db) == map[] {
      UnversionedFallback(e, pkg, db);
    } else {
      VersionedIsTakenAsIs(e, pkg, db);
    }
    if o.result.Ok? && !dryRun {
      var n, k := LayOut(e, pkg, target, db);
      LaidOutcome(e, pkg, target, dryRun, db, n, k);
      LaidPrefix(e, pkg, target, db, n, k);
      hide Migrate;
      assert IsPrefixHistory(pkg, HistoryIn(o.committed), if n < k then k else n);
      PrefixGrows(pkg, n, if n < k then k else n);
    }
  }

  lemma {:induction false} LaidPrefix(e: Engine, pkg: seq<Migration>, target: Option<string>, db: Db, n: nat, k: nat)
    requires Laid(e, pkg, target, db, n, k)
    ensures n <= |pkg| && k <= |pkg| && Prepare(e, pkg, db).working.Some?
    ensures HistoryIn(Prepare(e, pkg, db).working.value) == HistoryOf(pkg[..n])
  {
    hide Prepare;
  }

  datatype Call = Call(target: Option<string>, dryRun: bool)

  ghost function AfterCalls(e: Engine, pkg: seq<Migration>, calls: seq<Call>, db: Db): Db
    decreases |calls|
  {
    if calls == [] then db
    else AfterCalls(e, pkg, calls[1..], Migrate(e, pkg, calls[0].target, calls[0].dryRun, db).committed)
  }

  /** Over any sequence of migrations, dry runs and failures, the history of a fresh database is a growing prefix. */
  lemma {:induction false} HistoryIsAGrowingPrefix(e: Engine, pkg: seq<Migration>, calls: seq<Call>, db: Db)
    requires IsPackage(pkg) && exists n :: IsPrefixHistory(pkg, HistoryIn(db), n)
    ensures var after := HistoryIn(AfterCalls(e, pkg, calls, db));
            SubHistory(HistoryIn(db), after) && exists n :: IsPrefixHistory(pkg, after, n)
    decreases |calls|
  {
    hide Migrate, IsPrefixHistory, IsPackage;
    if calls != [] {
      CallGrowsHistory(e, pkg, calls[0].target, calls[0].dryRun, db);
      HistoryIsAGrowingPrefix(e, pkg, calls[1..], Migrate(e, pkg, calls[0].target, calls[0].dryRun, db).committed);
    }
  }

  /** What a successful migrate leaves is a versioned database that the next call takes as it is. */
  lemma {:induction false} SuccessLeaves(e: Engine, pkg: seq<Migration>, target: Option<string>, db: Db)
      returns (n: nat, k: nat)
    requires IsPackage(pkg) && pkg != [] && Migrate(e, pkg, target, false, db).result.Ok?
    ensures Laid(e, pkg, target, db, n, k) && k > 0
    ensures var left := Migrate(e, pkg, target, false, db).committed;
            && ApplyAll(e, pkg[Min(n, k)..k], Prepare(e, pkg, db).working.value) == Some(left)
            && Transactional(pkg[Min(n, k)..k], e.dialect, false) == []
            && IsPrefixHistory(pkg, HistoryIn(left), if n < k then k else n) && HistoryIn(left) != map[]
  {
    hide Prepare, ApplyAll, NotIn, In, Transactional, Accepted, Laid, HistoryIn, HistoryOf;
    n, k := LayOut(e, pkg, target, db);
    hide Migrate;
    LaidTakesUp(e, pkg, target, db, n, k);
    LaidOutcome(e, pkg, target, false, db, n, k);
    LaidPrefix(e, pkg, target, db, n, k);
    HistoryHolds(pkg[..if n < k then k else n], 0);
  }

  /** Repeating a successful migrate changes nothing, and if the schema still validates it reports "current". */
  lemma RepeatingIsCurrent(e: Engine, pkg: seq<Migration>, target: Option<string>, db: Db)
    requires IsPackage(pkg) && pkg != [] && Migrate(e, pkg, target, false, db).result.Ok?
    ensures var left := Migrate(e, pkg, target, false, db).committed;
            var again := Migrate(e, pkg, target, false, left);
            && again.committed == left
            && (again.result.Ok? ==> again.result.value.current && again.result.value.applied == [])
            && (again.result.Ok? <==> Accepted(pkg, HistoryIn(left), left))
  {
    var left := Migrate(e, pkg, target, false, db).committed;
    hide ApplyAll, NotIn, In, Transactional, IsPackage, HistoryOf, Laid, IsPrefixHistory, Prepare, Migrate;
    var n, k := SuccessLeaves(e, pkg, target, db);
    LaidTakesUp(e, pkg, target, db, n, k);
    VersionedIsTakenAsIs(e, pkg, left);
    VersionedPrepares(e, pkg, left);
    if Prepare(e, pkg, left).working.Some? {
      var n', k' := LayOut(e, pkg, target, left);
      SameSelection(e, pkg, target, db, n, k, left, n', k');
      LaidTakesUp(e, pkg, target, left, n', k');
      LaidPrefixIsUnique(e, pkg, target, left, n', k', if n < k then k else n);
      LaidOutcome(e, pkg, target, false, left, n', k');
      assert pkg[Min(n', k')..k'] == [];
      NothingToApply(e, left);
      NothingAdopted(e, pkg, target, left);
    } else {
      RefusedChangesNothing(e, pkg, target, left);
    }
  }

  lemma VersionedPrepares(e: Engine, pkg: seq<Migration>, db: Db)
    requires HistoryIn(db) != map[]
    ensures Prepare(e, pkg, db).working.Some? <==> Accepted(pkg, HistoryIn(db), db)
  {
  }

  lemma {:induction false} SameSelection(e: Engine, pkg: seq<Migration>, target: Option<string>, a: Db, n: nat,
      k: nat, b: Db, n': nat, k': nat)
    requires Laid(e, pkg, target, a, n, k) && Laid(e, pkg, target, b, n', k')
    ensures k == k'
  {
    hide Prepare;
    assert |pkg[..k]| == |pkg[..k']|;
  }

  lemma {:induction false} LaidPrefixIsUnique(e: Engine, pkg: seq<Migration>, target: Option<string>, db: Db, n: nat,
      k: nat, m: nat)
    requires IsPackage(pkg) && Laid(e, pkg, target, db, n, k)
    requires Prepare(e, pkg, db).working == Some(db) && IsPrefixHistory(pkg, HistoryIn(db), m)
    ensures n == m
  {
    hide Prepare;
    PrefixIsUnique(pkg, HistoryIn(db), n, m);
  }

  lemma NothingToApply(e: Engine, db: Db)
    ensures ApplyAll(e, [], db) == Some(db) && Transactional([], e.dialect, false) == [] && Ids([]) == []
  {
  }

  lemma {:induction false} NothingAdopted(e: Engine, pkg: seq<Migration>, target: Option<string>, db: Db)
    requires Prepare(e, pkg, db).working == Some(db) && Migrate(e, pkg, target, false, db).result.Ok?
    ensures var r := Migrate(e, pkg, target, false, db).result.value; r.adopted == {} && (r.applied == [] ==> r.current)
  {
    hide Prepare, ApplyAll, NotIn, In, Transactional;
  }

  lemma RefusedChangesNothing(e: Engine, pkg: seq<Migration>, target: Option<string>, db: Db)
    requires Select(pkg, target).Some? && Prepare(e, pkg, db).working == None
    ensures var o := Migrate(e, pkg, target, false, db); o.result.Err? && o.committed == Prepare(e, pkg, db).fallback
  {
    hide Prepare;
  }

  /**
   * Staged migration is direct migration: if migrating to one target and then to a later one succeeds, migrating
   * straight to the later one succeeds and leaves the same schema and history, adopted legacy databases included.
   */
  lemma StagedIsDirect(e: Engine, pkg: seq<Migration>, first: Option<string>, second: Option<string>, db: Db)
    requires IsPackage(pkg) && pkg != []
    requires Select(pkg, first).Some? && Select(pkg, second).Some?
        && |Select(pkg, first).value| <= |Select(pkg, second).value|
    requires Migrate(e, pkg, first, false, db).result.Ok?
    requires Migrate(e, pkg, second, false, Migrate(e, pkg, first, false, db).committed).result.Ok?
    ensures var direct := Migrate(e, pkg, second, false, db);
            && direct.result.Ok?
            && direct.committed == Migrate(e, pkg, second, false, Migrate(e, pkg, first, false, db).committed).committed
  {
    var mid := Migrate(e, pkg, first, false, db).committed;
    hide ApplyAll, NotIn, In, Transactional, IsPackage, HistoryOf, Laid, IsPrefixHistory, Prepare, Migrate, Accepted,
        Select;
    var n, a := SuccessLeaves(e, pkg, first, db);
    var m, b := SuccessLeaves(e, pkg, second, mid);
    VersionedIsTakenAsIs(e, pkg, mid);
    LaidTakesUp(e, pkg, first, db, n, a);
    LaidTakesUp(e, pkg, second, mid, m, b);
    LaidPrefixIsUnique(e, pkg, second, mid, m, b, if n < a then a else n);
    var n', b' := LayOut(e, pkg, second, db);
    SameSelection(e, pkg, second, mid, m, b, db, n', b');
    LaidTakesUp(e, pkg, second, db, n', b');
    SamePrepared(e, pkg, first, second, db, n, a, n', b');
    LaidOutcome(e, pkg, second, false, db, n, b);
    var w := Prepare(e, pkg, db).working.value;
    if n < a {
      assert pkg[n..b] == pkg[n..a] + pkg[a..b];
      ApplyAppend(e, pkg[n..a], pkg[a..b], w);
      TransactionalAppend(pkg[n..a], pkg[a..b], e.dialect, false);
    } else {
      assert pkg[a..a] == [];
      NothingToApply(e, w);
    }
  }

  lemma {:induction false} LaidTakesUp(e: Engine, pkg: seq<Migration>, target: Option<string>, db: Db, n: nat, k: nat)
    requires Laid(e, pkg, target, db, n, k)
    ensures n <= |pkg| && k <= |pkg| && Select(pkg, target) == Some(pkg[..k]) && Prepare(e, pkg, db).working.Some?
  {
    hide Prepare;
  }

  lemma {:induction false} SamePrepared(e: Engine, pkg: seq<Migration>, s: Option<string>, t: Option<string>, db: Db,
      n: nat, k: nat, n': nat, k': nat)
    requires IsPackage(pkg) && Laid(e, pkg, s, db, n, k) && Laid(e, pkg, t, db, n', k')
    ensures n == n'
  {
    hide Prepare;
    PrefixIsUnique(pkg, HistoryIn(Prepare(e, pkg, db).working.value), n, n');
  }

  // ---------------------------------------------------------------- plan

  /** The history `plan` goes by: none without a history table, whatever a migration would adopt. */
  ghost function ReadApplied(pkg: seq<Migration>, db: Db): Result<History> {
    if db.history == None then
      if UnknownManagedTables(map[], Tables(db)) then Err("manual migration adoption required") else Ok(map[])
    else if Accepted(pkg, HistoryIn(db), db) then Ok(HistoryIn(db))
    else Err("migration history not accepted")
  }

  datatype PlanReport = PlanReport(pending: seq<string>, verified: seq<string>)

  ghost function Plan(pkg: seq<Migration>, target: Option<string>, db: Db): Result<PlanReport> {
    var selected, applied := Select(pkg, target), ReadApplied(pkg, db);
    if selected == None then Err("unknown migration target")
    else if applied.Err? then Err(applied.message)
    else Ok(PlanReport(Ids(NotIn(selected.value, applied.value)), Ids(In(selected.value, applied.value))))
  }

  lemma {:induction false} NothingIsApplied(ms: seq<Migration>)
    ensures NotIn(ms, map[]) == ms && In(ms, map[]) == []
  {
    if ms != [] {
      NothingIsApplied(ms[1..]);
      assert ms == [ms[0]] + ms[1..];
    }
  }

  lemma {:induction false} PlanReads(e: Engine, pkg: seq<Migration>, db: Db)
    requires Prepare(e, pkg, db).working.Some?
    ensures ReadApplied(pkg, db) == Ok(HistoryIn(db))
  {
    hide SchemaInvariants, Bootstrap, Managed, IsPrefixHistory;
    var ensured := db.(history := Some(HistoryIn(db)));
    assert Accepted(pkg, HistoryIn(db), ensured);
    assert Tables(db) * Managed() <= Tables(ensured) * Managed();
  }

  lemma {:induction false} FlatIsRecorded(ms: seq<Migration>, history: History, id: string)
    ensures id in RecordFlat(ms, history)
        <==> id in history || exists i :: 0 <= i < |ms| && ms[i].isFlat && ms[i].id == id
  {
    if ms != [] {
      var next := if ms[0].isFlat then Recorded(history, ms[0]) else history;
      FlatIsRecorded(ms[1..], next, id);
      if i :| 0 <= i < |ms| && ms[i].isFlat && ms[i].id == id {
        assert i > 0 ==> ms[1..][i - 1] == ms[i];
      }
      if i :| 0 <= i < |ms[1..]| && ms[1..][i].isFlat && ms[1..][i].id == id {
        assert ms[i + 1] == ms[1..][i];
      }
    }
  }

  /**
   * A migration adopts the start of the package exactly where a legacy database is taken over and the package starts
   * flat.
   */
  predicate Adopts(pkg: seq<Migration>, db: Db) {
    HistoryIn(db) == map[] && "schema_meta" in db.schema.tables && pkg != [] && pkg[0].isFlat
  }

  lemma PreparedHistory(e: Engine, pkg: seq<Migration>, db: Db)
    requires Prepare(e, pkg, db).working.Some? && HistoryIn(db) == map[]
    ensures HistoryIn(Prepare(e, pkg, db).working.value)
         == if "schema_meta" in db.schema.tables then RecordFlat(pkg, map[]) else map[]
  {
    hide Accepted, RecordFlat, Managed;
  }

  lemma AdoptedIsVerified(e: Engine, pkg: seq<Migration>, target: Option<string>, db: Db)
    requires IsPackage(pkg) && Migrate(e, pkg, target, false, db).result.Ok? && HistoryIn(db) == map[]
    ensures Migrate(e, pkg, target, false, db).result.value.verified == [] <==> !Adopts(pkg, db)
  {
    hide Prepare, ApplyAll, NotIn, In, Transactional, HistoryOf, RecordFlat, Select, Accepted, HistoryIn;
    var n, k := LayOut(e, pkg, target, db);
    LaidOutcome(e, pkg, target, false, db, n, k);
    hide Migrate;
    LaidPrefix(e, pkg, target, db, n, k);
    PreparedHistory(e, pkg, db);
    NoMigrationsNoHistory();
    if pkg != [] {
      PrefixRecords(pkg, n, 0);
      FlatIsRecorded(pkg, map[], pkg[0].id);
    }
    assert |Ids(pkg[..Min(n, k)])| == Min(n, k);
  }

  /**
   * A plan and the migration it announces account for the same migrations. What the plan calls pending is what is then
   * applied, except where a legacy database is taken over: the migrations adopted there were called pending too.
   */
  lemma {:induction false} PlanForetellsMigrate(e: Engine, pkg: seq<Migration>, target: Option<string>, db: Db)
    requires IsPackage(pkg) && Migrate(e, pkg, target, false, db).result.Ok?
    ensures Plan(pkg, target, db).Ok?
    ensures var plan, done := Plan(pkg, target, db).value, Migrate(e, pkg, target, false, db).result.value;
            && plan.verified + plan.pending == done.verified + done.applied
            && (plan.pending == done.applied <==> !Adopts(pkg, db))
  {
    hide Prepare, ReadApplied, Accepted, ApplyAll, HistoryOf, IsPackage, NotIn, In, Transactional;
    PlanReads(e, pkg, db);
    var plan, done := Plan(pkg, target, db).value, Migrate(e, pkg, target, false, db).result.value;
    var selected := Select(pkg, target).value;
    SuccessAccountsForAll(e, pkg, target, db);
    if HistoryIn(db) == map[] {
      NothingIsApplied(selected);
      AdoptedIsVerified(e, pkg, target, db);
    } else {
      VersionedIsTakenAsIs(e, pkg, db);
      AllTransactional(NotIn(selected, HistoryIn(db)), e.dialect);
    }
  }
}
