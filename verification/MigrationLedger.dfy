/** `run_migrations` as a loop that may stop at any statement boundary, and what its ledger
    keeps over every sequence of runs and crashes. */
module MigrationLedger {
  import opened Options
  import SqlSplitter

  datatype MigrationFile = MigrationFile(
    name: string, contents: string, sentinel: Option<string>, transactional: bool)

  /** What the model does not look into: the digest of a file, and what executing SQL text
      does to the set of existing tables. */
  datatype Engine = Engine(digest: string -> int, execute: (string, set<string>) -> set<string>)

  /** `committed` lists the transactional migrations whose transaction committed, in order. */
  datatype Db = Db(ledger: map<string, int>, tables: set<string>, committed: seq<string>)

  /** Where a run stops while it is at one file: nowhere, before the ledger lookup ends, after
      `k` statements (an SQL error or a crash), or just after the file was recorded. */
  datatype Fault = NoFault | AtLookup | AtStatement(k: nat) | AfterRecord

  datatype MigrationError = ChecksumMismatch(name: string) | Interrupted | MissingMigrationHead(name: string)

  datatype FileResult =
    | Skipped(db: Db)
    | Applied(db: Db)
    | Stopped(db: Db, error: MigrationError)

  datatype Outcome =
    | Done(applied: seq<string>, skipped: seq<string>)
    | Failed(error: MigrationError)

  datatype Run = Run(db: Db, outcome: Outcome)

  predicate Materialized(db: Db, sentinel: Option<string>) {
    sentinel.Some? && '.' in sentinel.value && sentinel.value in db.tables
  }

  function Record(engine: Engine, db: Db, file: MigrationFile): Db {
    db.(ledger := db.ledger[file.name := engine.digest(file.contents)])
  }

  function ExecuteAll(engine: Engine, statements: seq<string>, tables: set<string>): set<string> {
    if statements == [] then tables
    else ExecuteAll(engine, statements[1..], engine.execute(statements[0], tables))
  }

  /** One iteration of the loop over the registry. */
  function MigrateFile(engine: Engine, db: Db, file: MigrationFile, fault: Fault): FileResult {
    if fault.AtLookup? then Stopped(db, Interrupted)
    else if file.name in db.ledger then
      if db.ledger[file.name] != engine.digest(file.contents) then Stopped(db, ChecksumMismatch(file.name))
      else Skipped(db)
    else if Materialized(db, file.sentinel) then
      match fault
      case AtStatement(_) => Stopped(db, Interrupted)
      case AfterRecord => Stopped(Record(engine, db, file), Interrupted)
      case _ => Skipped(Record(engine, db, file))
    else if file.transactional then
      // The body and the ledger row commit together or not at all.
      var db' := Record(engine, db, file)
                 .(tables := engine.execute(file.contents, db.tables), committed := db.committed + [file.name]);
      match fault
      case AtStatement(_) => Stopped(db, Interrupted)
      case AfterRecord => Stopped(db', Interrupted)
      case _ => Applied(db')
    else
      var statements := SqlSplitter.Statements(file.contents);
      var db' := db.(tables := ExecuteAll(engine, statements, db.tables));
      match fault
      case AtStatement(k) =>
        var ran := if k <= |statements| then k else |statements|;
        Stopped(db.(tables := ExecuteAll(engine, statements[..ran], db.tables)), Interrupted)
      case AfterRecord => Stopped(Record(engine, db', file), Interrupted)
      case _ => Applied(Record(engine, db', file))
  }

  /** The loop from file `i` on, with what it has applied and skipped so far. */
  function RunFrom(engine: Engine, db: Db, files: seq<MigrationFile>, faults: nat -> Fault, i: nat,
                   applied: seq<string>, skipped: seq<string>): Run
    requires i <= |files|
    decreases |files| - i
  {
    if i == |files| then Run(db, Done(applied, skipped))
    else match MigrateFile(engine, db, files[i], faults(i))
      case Skipped(db') => RunFrom(engine, db', files, faults, i + 1, applied, skipped + [files[i].name])
      case Applied(db') => RunFrom(engine, db', files, faults, i + 1, applied + [files[i].name], skipped)
      case Stopped(db', error) => Run(db', Failed(error))
  }

  function RunMigrations(engine: Engine, db: Db, files: seq<MigrationFile>, faults: nat -> Fault): Run {
    RunFrom(engine, db, files, faults, 0, [], [])
  }

  /** The database as one connection holding the migration lock sees and changes it. */
  class Migrator {
    const engine: Engine
    var ledger: map<string, int>
    var tables: set<string>
    var committed: seq<string>

    function State(): Db
      reads this
    {
      Db(ledger, tables, committed)
    }

    constructor (engine: Engine, db: Db)
      ensures this.engine == engine && State() == db
    {
      this.engine := engine;
      ledger, tables, committed := db.ledger, db.tables, db.committed;
    }

    method RunAll(files: seq<MigrationFile>, faults: nat -> Fault) returns (outcome: Outcome)
      modifies this
      ensures Run(State(), outcome) == RunMigrations(engine, old(State()), files, faults)
    {
      var applied, skipped := [], [];
      for i := 0 to |files|
        invariant RunFrom(engine, State(), files, faults, i, applied, skipped)
               == RunMigrations(engine, old(State()), files, faults)
      {
        var file, fault := files[i], faults(i);
        if fault.AtLookup? {
          return Failed(Interrupted);
        }
        if file.name in ledger {
          if ledger[file.name] != engine.digest(file.contents) {
            return Failed(ChecksumMismatch(file.name));
          }
          skipped := skipped + [file.name];
          continue;
        }
        if Materialized(State(), file.sentinel) {
          if fault.AtStatement? {
            return Failed(Interrupted);
          }
          ledger := ledger[file.name := engine.digest(file.contents)];
          if fault.AfterRecord? {
            return Failed(Interrupted);
          }
          skipped := skipped + [file.name];
          continue;
        }
        if file.transactional {
          if fault.AtStatement? {
            return Failed(Interrupted);
          }
          tables := engine.execute(file.contents, tables);
          ledger := ledger[file.name := engine.digest(file.contents)];
          committed := committed + [file.name];
        } else {
          var statements := SqlSplitter.SplitSqlStatements(file.contents);
          var stop := if fault.AtStatement? && fault.k <= |statements| then fault.k else |statements|;
          tables := Execute(statements[..stop], tables);
          if fault.AtStatement? {
            return Failed(Interrupted);
          }
          assert statements[..stop] == statements;
          ledger := ledger[file.name := engine.digest(file.contents)];
        }
        if fault.AfterRecord? {
          return Failed(Interrupted);
        }
        applied := applied + [file.name];
      }
      outcome := Done(applied, skipped);
    }

    method Execute(statements: seq<string>, before: set<string>) returns (after: set<string>)
      ensures after == ExecuteAll(engine, statements, before)
    {
      after := before;
      for i := 0 to |statements|
        invariant ExecuteAll(engine, statements[i..], after) == ExecuteAll(engine, statements, before)
      {
        after := engine.execute(statements[i], after);
      }
    }
  }

  // ----- Status -----

  function Names(files: seq<MigrationFile>): seq<string> {
    seq(|files|, i requires 0 <= i < |files| => files[i].name)
  }

  function Pending(db: Db, files: seq<MigrationFile>): seq<string> {
    if files == [] then []
    else (if files[0].name in db.ledger then [] else [files[0].name]) + Pending(db, files[1..])
  }

  /** `require_latest_migration_head`: no error when the last registered name is recorded. */
  function RequireLatestHead(db: Db, registry: seq<MigrationFile>): Option<MigrationError>
    requires registry != []
  {
    var head := registry[|registry| - 1].name;
    if head in db.ledger then None else Some(MissingMigrationHead(head))
  }

  // ----- What every run keeps -----

  /** The registry, in order, with distinct names. */
  ghost predicate Registry(registry: seq<MigrationFile>) {
    forall i, j | 0 <= i < j < |registry| :: registry[i].name != registry[j].name
  }

  function LedgerOf(engine: Engine, registry: seq<MigrationFile>, k: nat): map<string, int>
    requires k <= |registry|
  {
    if k == 0 then map[]
    else LedgerOf(engine, registry, k - 1)[registry[k - 1].name := engine.digest(registry[k - 1].contents)]
  }

  predicate NoRepeats(s: seq<string>) {
    forall i, j | 0 <= i < j < |s| :: s[i] != s[j]
  }

  /** The ledger is the first `k` files of the registry; a transactional migration committed
      at most once, and exactly once when it is recorded and has no sentinel table. */
  ghost predicate Sound(engine: Engine, registry: seq<MigrationFile>, db: Db, k: nat) {
    && k <= |registry|
    && db.ledger == LedgerOf(engine, registry, k)
    && NoRepeats(db.committed)
    && (forall name | name in db.committed :: name in db.ledger)
    && (forall i | 0 <= i < k && registry[i].transactional && registry[i].sentinel.None? ::
          registry[i].name in db.committed)
  }

  lemma {:induction false} LedgerOfKeys(engine: Engine, registry: seq<MigrationFile>, k: nat)
    requires k <= |registry|
    ensures forall name :: name in LedgerOf(engine, registry, k) <==> exists i | 0 <= i < k :: registry[i].name == name
    ensures Registry(registry) ==>
              forall i | 0 <= i < k :: LedgerOf(engine, registry, k)[registry[i].name] == engine.digest(registry[i].contents)
  {
    if k > 0 {
      LedgerOfKeys(engine, registry, k - 1);
      forall name
        ensures name in LedgerOf(engine, registry, k) <==> exists i | 0 <= i < k :: registry[i].name == name
      {
        if name == registry[k - 1].name {
        } else if name in LedgerOf(engine, registry, k - 1) {
          var i :| 0 <= i < k - 1 && registry[i].name == name;
        }
      }
    }
  }

  /** Recording the next file, with or without a commit of its body, extends the prefix. */
  lemma RecordKeepsSound(engine: Engine, registry: seq<MigrationFile>, db: Db, k: nat, db': Db)
    requires Registry(registry) && Sound(engine, registry, db, k) && k < |registry|
    requires db'.ledger == Record(engine, db, registry[k]).ledger
    requires db'.committed == db.committed + [registry[k].name]
             || (db'.committed == db.committed && (!registry[k].transactional || registry[k].sentinel.Some?))
    ensures Sound(engine, registry, db', k + 1)
  {
    LedgerOfKeys(engine, registry, k);
    assert registry[k].name !in db.ledger;
  }

  lemma FileKeepsSound(engine: Engine, registry: seq<MigrationFile>, db: Db, k: nat, i: nat, fault: Fault)
    requires Registry(registry) && Sound(engine, registry, db, k)
    requires i <= k && i < |registry|
    ensures var r := MigrateFile(engine, db, registry[i], fault);
            && (i < k ==> r.db == db && (r.Skipped? || fault.AtLookup?))
            && (i == k ==> Sound(engine, registry, r.db, k + 1) || (r.Stopped? && Sound(engine, registry, r.db, k)))
            && (r.Stopped? ==> r.error == Interrupted)
  {
    var r := MigrateFile(engine, db, registry[i], fault);
    LedgerOfKeys(engine, registry, k);
    if i == k {
      assert registry[k].name !in db.ledger;
      if r.db.ledger != db.ledger {
        RecordKeepsSound(engine, registry, db, k, r.db);
      }
    }
  }

  ghost predicate SomeSound(engine: Engine, registry: seq<MigrationFile>, db: Db, least: nat) {
    exists k :: least <= k && Sound(engine, registry, db, k)
  }

  lemma {:induction false} RunFromKeepsSound(
    engine: Engine, registry: seq<MigrationFile>, db: Db, k: nat, n: nat, faults: nat -> Fault, i: nat,
    applied: seq<string>, skipped: seq<string>)
    requires Registry(registry) && Sound(engine, registry, db, k)
    requires i <= n <= |registry| && i <= k
    ensures var run := RunFrom(engine, db, registry[..n], faults, i, applied, skipped);
            && SomeSound(engine, registry, run.db, if run.outcome.Done? && n > k then n else k)
            && (run.outcome.Failed? ==> run.outcome.error == Interrupted)
            && (n <= k ==> run.db == db)
    decreases n - i
  {
    hide Sound, MigrateFile;
    if i < n {
      var file := registry[..n][i];
      FileKeepsSound(engine, registry, db, k, i, faults(i));
      var r := MigrateFile(engine, db, file, faults(i));
      if !r.Stopped? {
        var k' := if i < k then k else k + 1;
        var applied' := if r.Applied? then applied + [file.name] else applied;
        var skipped' := if r.Applied? then skipped else skipped + [file.name];
        RunFromKeepsSound(engine, registry, r.db, k', n, faults, i + 1, applied', skipped');
        var run := RunFrom(engine, r.db, registry[..n], faults, i + 1, applied', skipped');
        var m :| (if run.outcome.Done? && n > k' then n else k') <= m && Sound(engine, registry, run.db, m);
      }
    }
  }

  /** A run of some release: its registry is the first `n` files, and it may stop anywhere. */
  datatype Attempt = Attempt(n: nat, faults: nat -> Fault)

  function AfterAttempts(engine: Engine, registry: seq<MigrationFile>, db: Db, attempts: seq<Attempt>): Db
    requires forall a | a in attempts :: a.n <= |registry|
  {
    if attempts == [] then db
    else
      var last := attempts[|attempts| - 1];
      RunMigrations(engine, AfterAttempts(engine, registry, db, attempts[..|attempts| - 1]), registry[..last.n], last.faults).db
  }

  const EMPTY_DB := Db(map[], {}, [])

  /** Crash safety: whatever tables existed, after any sequence of runs, each stopped anywhere
      or finished, the recorded names are a prefix of the registry with its checksums, and
      every transactional migration committed at most once. */
  lemma {:induction false} LedgerIsPrefix(
    engine: Engine, registry: seq<MigrationFile>, tables: set<string>, attempts: seq<Attempt>)
    requires Registry(registry)
    requires forall a | a in attempts :: a.n <= |registry|
    ensures SomeSound(engine, registry, AfterAttempts(engine, registry, EMPTY_DB.(tables := tables), attempts), 0)
  {
    var start := EMPTY_DB.(tables := tables);
    if attempts == [] {
      assert Sound(engine, registry, start, 0);
    } else {
      var prefix, last := attempts[..|attempts| - 1], attempts[|attempts| - 1];
      LedgerIsPrefix(engine, registry, tables, prefix);
      var db := AfterAttempts(engine, registry, start, prefix);
      var k :| 0 <= k && Sound(engine, registry, db, k);
      RunFromKeepsSound(engine, registry, db, k, last.n, last.faults, 0, [], []);
    }
  }

  /** The head check passes exactly when every migration is recorded, which is exactly when
      nothing is pending. */
  lemma HeadMeansAll(engine: Engine, registry: seq<MigrationFile>, db: Db)
    requires registry != [] && Registry(registry) && SomeSound(engine, registry, db, 0)
    ensures RequireLatestHead(db, registry).None? <==> forall file | file in registry :: file.name in db.ledger
    ensures RequireLatestHead(db, registry).None? <==> Pending(db, registry) == []
  {
    HeadIsLast(engine, registry, db);
    PendingIsMissing(db, registry);
    var pending := Pending(db, registry);
    assert pending != [] ==> pending[0] in pending;
    assert forall i | 0 <= i < |registry| :: Names(registry)[i] == registry[i].name;
    assert forall name | name in Names(registry) :: exists i | 0 <= i < |registry| :: name == registry[i].name;
    assert forall file | file in registry :: file.name in Names(registry);
  }

  lemma HeadIsLast(engine: Engine, registry: seq<MigrationFile>, db: Db)
    requires registry != [] && Registry(registry) && SomeSound(engine, registry, db, 0)
    ensures RequireLatestHead(db, registry).None? <==> forall file | file in registry :: file.name in db.ledger
  {
    var k :| 0 <= k && Sound(engine, registry, db, k);
    LedgerOfKeys(engine, registry, k);
    var head := registry[|registry| - 1];
    if head.name in db.ledger {
      var i :| 0 <= i < k && registry[i].name == head.name;
      assert i == |registry| - 1;
    }
    assert head in registry;
  }

  lemma {:induction false} PendingIsMissing(db: Db, files: seq<MigrationFile>)
    ensures forall name :: name in Pending(db, files) <==> name !in db.ledger && name in Names(files)
  {
    if files != [] {
      PendingIsMissing(db, files[1..]);
      assert Names(files) == [files[0].name] + Names(files[1..]);
    }
  }

  /** The registry names still to run, in registry order, are exactly the pending ones. */
  lemma {:induction false} SkipsAll(
    engine: Engine, registry: seq<MigrationFile>, db: Db, k: nat, n: nat, faults: nat -> Fault, i: nat,
    applied: seq<string>, skipped: seq<string>)
    requires Registry(registry) && Sound(engine, registry, db, k)
    requires i <= n <= k && forall j :: !faults(j).AtLookup?
    ensures RunFrom(engine, db, registry[..n], faults, i, applied, skipped)
         == Run(db, Done(applied, skipped + Names(registry[i..n])))
    decreases n - i
  {
    if i == n {
      assert skipped + Names(registry[n..n]) == skipped;
    } else {
      FileKeepsSound(engine, registry, db, k, i, faults(i));
      assert registry[..n][i] == registry[i];
      SkipsAll(engine, registry, db, k, n, faults, i + 1, applied, skipped + [registry[i].name]);
      assert Names(registry[i..n]) == [registry[i].name] + Names(registry[i + 1..n]);
      assert skipped + [registry[i].name] + Names(registry[i + 1..n]) == skipped + Names(registry[i..n]);
    }
  }

  /** Once a run over the registry has succeeded, any later run that can read the ledger
      applies nothing, changes nothing and reports every file as skipped. */
  lemma SecondRunAppliesNothing(
    engine: Engine, registry: seq<MigrationFile>, db: Db, faults: nat -> Fault, later: nat -> Fault)
    requires Registry(registry) && SomeSound(engine, registry, db, 0)
    requires RunMigrations(engine, db, registry, faults).outcome.Done?
    requires forall j :: !later(j).AtLookup?
    ensures var db' := RunMigrations(engine, db, registry, faults).db;
            RunMigrations(engine, db', registry, later) == Run(db', Done([], Names(registry)))
  {
    var k :| 0 <= k && Sound(engine, registry, db, k);
    var n := |registry|;
    assert registry[..n] == registry == registry[0..n];
    RunFromKeepsSound(engine, registry, db, k, n, faults, 0, [], []);
    var db' := RunMigrations(engine, db, registry, faults).db;
    var m :| (if n > k then n else k) <= m && Sound(engine, registry, db', m);
    SkipsAll(engine, registry, db', m, n, later, 0, [], []);
    assert [] + Names(registry) == Names(registry);
  }

  /** A run that succeeds accounts for every file of the registry exactly once. */
  lemma {:induction false} OutcomeCoversRegistry(
    engine: Engine, db: Db, files: seq<MigrationFile>, faults: nat -> Fault, i: nat,
    applied: seq<string>, skipped: seq<string>)
    requires i <= |files|
    ensures var o := RunFrom(engine, db, files, faults, i, applied, skipped).outcome;
            o.Done? ==> multiset(o.applied) + multiset(o.skipped)
                        == multiset(applied) + multiset(skipped) + multiset(Names(files)[i..])
    decreases |files| - i
  {
    if i < |files| {
      assert Names(files)[i..] == [files[i].name] + Names(files)[i + 1..];
      match MigrateFile(engine, db, files[i], faults(i))
      case Skipped(db') =>
        OutcomeCoversRegistry(engine, db', files, faults, i + 1, applied, skipped + [files[i].name]);
      case Applied(db') =>
        OutcomeCoversRegistry(engine, db', files, faults, i + 1, applied + [files[i].name], skipped);
      case Stopped(_, _) =>
    }
  }
}
