/** What migration runs execute: nothing is recorded that has not run, and nothing runs twice. */
module MigrationEffects {
  import opened Options
  import SqlSplitter
  import opened MigrationLedger

  /** The texts a migration sends to the database: its whole contents, or statement by statement. */
  function TextsOf(file: MigrationFile): seq<string> {
    if file.transactional then [file.contents] else SqlSplitter.Statements(file.contents)
  }

  /** The file's sentinel names a schema and a table that exists. */
  predicate SentinelExists(file: MigrationFile, tables: set<string>) {
    file.sentinel.Some? && '.' in file.sentinel.value && file.sentinel.value in tables
  }

  // ----- A run that succeeds -----

  /** The tables when file `i` has its turn: each earlier file that was not recorded, and whose
      sentinel table did not exist at its own turn, has been executed. */
  function TablesAt(engine: Engine, start: Db, files: seq<MigrationFile>, i: nat): set<string>
    requires i <= |files|
  {
    if i == 0 then start.tables
    else
      var before := TablesAt(engine, start, files, i - 1);
      if files[i - 1].name in start.ledger || SentinelExists(files[i - 1], before) then before
      else ExecuteAll(engine, TextsOf(files[i - 1]), before)
  }

  predicate IsApplied(engine: Engine, start: Db, files: seq<MigrationFile>, i: nat)
    requires i < |files|
  {
    files[i].name !in start.ledger && !SentinelExists(files[i], TablesAt(engine, start, files, i))
  }

  /** The names of the files from `i` on that are applied, or that are not, in order. */
  function NamesFrom(engine: Engine, start: Db, files: seq<MigrationFile>, i: nat, applied: bool): seq<string>
    requires i <= |files|
    decreases |files| - i
  {
    if i == |files| then []
    else
      (if IsApplied(engine, start, files, i) == applied then [files[i].name] else [])
      + NamesFrom(engine, start, files, i + 1, applied)
  }

  /** A run that succeeds executes, in order, exactly the files that were neither recorded nor
      found by their sentinel at their turn; it reports exactly these as applied and the others as
      skipped, records every file with its digest, and touches no other row. */
  lemma DoneRunExecutes(engine: Engine, db: Db, files: seq<MigrationFile>, faults: nat -> Fault)
    requires Registry(files) && RunMigrations(engine, db, files, faults).outcome.Done?
    ensures var run := RunMigrations(engine, db, files, faults);
            && run.db.tables == TablesAt(engine, db, files, |files|)
            && run.outcome == Done(NamesFrom(engine, db, files, 0, true), NamesFrom(engine, db, files, 0, false))
            && (forall i | 0 <= i < |files| ::
                  files[i].name in run.db.ledger && run.db.ledger[files[i].name] == engine.digest(files[i].contents))
            && (forall name | name in db.ledger :: name in run.db.ledger && run.db.ledger[name] == db.ledger[name])
  {
    RestExecutes(engine, db, db, files, faults, 0, [], []);
    hide *;
    var a, b := NamesFrom(engine, db, files, 0, true), NamesFrom(engine, db, files, 0, false);
    assert [] + a == a && [] + b == b;
    FromStart(engine, db, files, faults);
  }

  lemma FromStart(engine: Engine, db: Db, files: seq<MigrationFile>, faults: nat -> Fault)
    ensures RunMigrations(engine, db, files, faults) == RunFrom(engine, db, files, faults, 0, [], [])
    ensures TablesAt(engine, db, files, 0) == db.tables
  {
  }

  ghost predicate Recorded(engine: Engine, db: Db, files: seq<MigrationFile>, i: nat) {
    forall j | i <= j < |files| :: files[j].name in db.ledger && db.ledger[files[j].name] == engine.digest(files[j].contents)
  }

  ghost predicate KeepsRows(before: map<string, int>, after: map<string, int>) {
    forall name | name in before :: name in after && after[name] == before[name]
  }

  ghost predicate SameFrom(start: Db, db: Db, files: seq<MigrationFile>, i: nat) {
    forall j | i <= j < |files| :: files[j].name in db.ledger <==> files[j].name in start.ledger
  }

  lemma {:induction false} RestExecutes(
    engine: Engine, start: Db, db: Db, files: seq<MigrationFile>, faults: nat -> Fault, i: nat,
    applied: seq<string>, skipped: seq<string>)
    requires Registry(files) && i <= |files| && RunFrom(engine, db, files, faults, i, applied, skipped).outcome.Done?
    requires SameFrom(start, db, files, i) && db.tables == TablesAt(engine, start, files, i)
    ensures var run := RunFrom(engine, db, files, faults, i, applied, skipped);
            && run.db.tables == TablesAt(engine, start, files, |files|)
            && run.outcome == Done(applied + NamesFrom(engine, start, files, i, true), skipped + NamesFrom(engine, start, files, i, false))
            && Recorded(engine, run.db, files, i) && KeepsRows(db.ledger, run.db.ledger)
    decreases |files| - i
  {
    hide *;
    if i == |files| {
      NothingLeft(engine, start, db, files, faults, applied, skipped);
    } else {
      var file := files[i];
      var r := MigrateFile(engine, db, file, faults(i));
      var applied' := if r.Applied? then applied + [file.name] else applied;
      var skipped' := if r.Applied? then skipped else skipped + [file.name];
      OneMore(engine, start, db, files, faults, i, applied, skipped);
      RestExecutes(engine, start, r.db, files, faults, i + 1, applied', skipped');
      RecordedOneMore(engine, db, files, faults, i, applied', skipped');
      var more, less := NamesFrom(engine, start, files, i + 1, true), NamesFrom(engine, start, files, i + 1, false);
      assert applied + [file.name] + more == applied + ([file.name] + more);
      assert skipped + [file.name] + less == skipped + ([file.name] + less);
      assert [] + more == more && [] + less == less;
    }
  }

  lemma NothingLeft(
    engine: Engine, start: Db, db: Db, files: seq<MigrationFile>, faults: nat -> Fault, applied: seq<string>, skipped: seq<string>)
    ensures RunFrom(engine, db, files, faults, |files|, applied, skipped) == Run(db, Done(applied, skipped))
    ensures applied + NamesFrom(engine, start, files, |files|, true) == applied
    ensures skipped + NamesFrom(engine, start, files, |files|, false) == skipped
    ensures Recorded(engine, db, files, |files|) && KeepsRows(db.ledger, db.ledger)
  {
  }

  /** One file of a run that succeeds, as the run goes on after it. */
  lemma OneMore(
    engine: Engine, start: Db, db: Db, files: seq<MigrationFile>, faults: nat -> Fault, i: nat,
    applied: seq<string>, skipped: seq<string>)
    requires Registry(files) && i < |files| && RunFrom(engine, db, files, faults, i, applied, skipped).outcome.Done?
    requires SameFrom(start, db, files, i) && db.tables == TablesAt(engine, start, files, i)
    ensures var r := MigrateFile(engine, db, files[i], faults(i));
            && SameFrom(start, r.db, files, i + 1) && r.db.tables == TablesAt(engine, start, files, i + 1)
            && !r.Stopped? && r.Applied? == IsApplied(engine, start, files, i)
            && RunFrom(engine, db, files, faults, i, applied, skipped)
               == RunFrom(engine, r.db, files, faults, i + 1, if r.Applied? then applied + [files[i].name] else applied,
                          if r.Applied? then skipped else skipped + [files[i].name])
            && NamesFrom(engine, start, files, i, true)
               == (if r.Applied? then [files[i].name] else []) + NamesFrom(engine, start, files, i + 1, true)
            && NamesFrom(engine, start, files, i, false)
               == (if r.Applied? then [] else [files[i].name]) + NamesFrom(engine, start, files, i + 1, false)
  {
    hide ExecuteAll, TextsOf, SentinelExists;
    OneFile(engine, db, files[i], faults(i));
    hide MigrateFile;
    assert forall j | i < j < |files| :: files[j].name != files[i].name;
  }

  lemma RecordedOneMore(
    engine: Engine, db: Db, files: seq<MigrationFile>, faults: nat -> Fault, i: nat, applied: seq<string>, skipped: seq<string>)
    requires i < |files| && !MigrateFile(engine, db, files[i], faults(i)).Stopped?
    requires var r := MigrateFile(engine, db, files[i], faults(i));
             var after := RunFrom(engine, r.db, files, faults, i + 1, applied, skipped).db;
             Recorded(engine, after, files, i + 1) && KeepsRows(r.db.ledger, after.ledger)
    ensures var r := MigrateFile(engine, db, files[i], faults(i));
            var after := RunFrom(engine, r.db, files, faults, i + 1, applied, skipped).db;
            Recorded(engine, after, files, i) && KeepsRows(db.ledger, after.ledger)
  {
    OneFile(engine, db, files[i], faults(i));
    hide MigrateFile, RunFrom, ExecuteAll, TextsOf, SentinelExists;
  }

  /** One file that does not stop the run. */
  lemma OneFile(engine: Engine, db: Db, file: MigrationFile, fault: Fault)
    ensures var r := MigrateFile(engine, db, file, fault);
            !r.Stopped? ==>
              && r.db.tables == (if file.name in db.ledger || SentinelExists(file, db.tables) then db.tables
                                 else ExecuteAll(engine, TextsOf(file), db.tables))
              && (r.Applied? <==> file.name !in db.ledger && !SentinelExists(file, db.tables))
              && file.name in r.db.ledger && r.db.ledger[file.name] == engine.digest(file.contents)
              && KeepsRows(db.ledger, r.db.ledger)
              && (forall name | name in r.db.ledger :: name in db.ledger || name == file.name)
  {
    OneText(engine, file.contents, db.tables);
  }

  lemma OneText(engine: Engine, text: string, tables: set<string>)
    ensures ExecuteAll(engine, [text], tables) == engine.execute(text, tables) && ExecuteAll(engine, [], tables) == tables
  {
    assert [text][1..] == [];
  }

  /** One file, stopped or not: some of its texts are executed, the first `k`. It is newly recorded
      only after all of them, or because its sentinel table exists; a transactional file is executed
      exactly when it commits. */
  lemma FileOutcome(engine: Engine, db: Db, file: MigrationFile, fault: Fault) returns (k: nat)
    ensures var db' := MigrateFile(engine, db, file, fault).db;
            && k <= |TextsOf(file)| && db'.tables == ExecuteAll(engine, TextsOf(file)[..k], db.tables)
            && db'.committed == db.committed + (if file.transactional && k == 1 then [file.name] else [])
            && (forall name | name in db'.ledger && name !in db.ledger :: name == file.name)
            && (file.name in db'.ledger && file.name !in db.ledger ==> k == |TextsOf(file)| || SentinelExists(file, db.tables))
  {
    var texts := TextsOf(file);
    assert texts[..0] == [] && texts[..|texts|] == texts;
    OneText(engine, file.contents, db.tables);
    hide ExecuteAll, SqlSplitter.Statements;
    if fault.AtLookup? || file.name in db.ledger || SentinelExists(file, db.tables) {
      k := 0;
    } else if file.transactional {
      k := if fault.AtStatement? then 0 else 1;
    } else {
      k := if fault.AtStatement? && fault.k <= |texts| then fault.k else |texts|;
    }
  }

  /** A run that nothing interrupts succeeds if and only if no recorded file has changed. */
  lemma UninterruptedSucceedsIff(engine: Engine, db: Db, files: seq<MigrationFile>, faults: nat -> Fault)
    requires Registry(files) && forall i | 0 <= i < |files| :: faults(i).NoFault?
    ensures RunMigrations(engine, db, files, faults).outcome.Done?
            <==> forall i | 0 <= i < |files| && files[i].name in db.ledger :: db.ledger[files[i].name] == engine.digest(files[i].contents)
  {
    RestSucceedsIff(engine, db, files, faults, 0, [], []);
  }

  lemma {:induction false} RestSucceedsIff(
    engine: Engine, db: Db, files: seq<MigrationFile>, faults: nat -> Fault, i: nat, applied: seq<string>, skipped: seq<string>)
    requires Registry(files) && i <= |files| && forall j | 0 <= j < |files| :: faults(j).NoFault?
    ensures RunFrom(engine, db, files, faults, i, applied, skipped).outcome.Done?
            <==> forall j | i <= j < |files| && files[j].name in db.ledger :: db.ledger[files[j].name] == engine.digest(files[j].contents)
    decreases |files| - i
  {
    hide ExecuteAll, SqlSplitter.Statements;
    if i < |files| {
      assert forall j | i < j < |files| :: files[j].name != files[i].name;
      match MigrateFile(engine, db, files[i], faults(i))
      case Skipped(db') => RestSucceedsIff(engine, db', files, faults, i + 1, applied, skipped + [files[i].name]);
      case Applied(db') => RestSucceedsIff(engine, db', files, faults, i + 1, applied + [files[i].name], skipped);
      case Stopped(_, _) =>
    }
  }

  // ----- Runs and crashes -----

  /** Whatever is executed keeps `p`. */
  ghost predicate Keeps(engine: Engine, p: set<string> -> bool) {
    forall text, tables | p(tables) :: p(engine.execute(text, tables))
  }

  ghost predicate BringsAbout(engine: Engine, text: string, p: set<string> -> bool) {
    forall tables :: p(engine.execute(text, tables))
  }

  /** Some text of the file makes `p` true, and so does the existence of its sentinel table. */
  ghost predicate Establishes(engine: Engine, file: MigrationFile, p: set<string> -> bool) {
    && (exists k :: 0 <= k < |TextsOf(file)| && BringsAbout(engine, TextsOf(file)[k], p))
    && (forall tables | SentinelExists(file, tables) :: p(tables))
  }

  lemma {:induction false} ExecuteKeeps(engine: Engine, texts: seq<string>, tables: set<string>, p: set<string> -> bool)
    requires Keeps(engine, p) && p(tables)
    ensures p(ExecuteAll(engine, texts, tables))
    decreases |texts|
  {
    if texts != [] {
      ExecuteKeeps(engine, texts[1..], engine.execute(texts[0], tables), p);
    }
  }

  lemma {:induction false} ExecuteEstablishes(
    engine: Engine, texts: seq<string>, tables: set<string>, p: set<string> -> bool, k: nat)
    requires Keeps(engine, p) && k < |texts| && BringsAbout(engine, texts[k], p)
    ensures p(ExecuteAll(engine, texts, tables))
    decreases |texts|
  {
    if k == 0 {
      ExecuteKeeps(engine, texts[1..], engine.execute(texts[0], tables), p);
    } else {
      ExecuteEstablishes(engine, texts[1..], engine.execute(texts[0], tables), p, k - 1);
    }
  }

  /** If the file is recorded then `p` holds. */
  ghost predicate RecordedMeans(file: MigrationFile, p: set<string> -> bool, db: Db) {
    file.name in db.ledger ==> p(db.tables)
  }

  lemma FileKeepsMeaning(engine: Engine, db: Db, next: MigrationFile, fault: Fault, file: MigrationFile, p: set<string> -> bool)
    requires Keeps(engine, p) && Establishes(engine, file, p) && (next.name == file.name ==> next == file)
    requires RecordedMeans(file, p, db)
    ensures RecordedMeans(file, p, MigrateFile(engine, db, next, fault).db)
  {
    var k := FileOutcome(engine, db, next, fault);
    var texts := TextsOf(next);
    hide Keeps, ExecuteAll, TextsOf, MigrateFile, BringsAbout;
    if p(db.tables) {
      ExecuteKeeps(engine, texts[..k], db.tables, p);
    } else if next == file && k == |texts| {
      var e :| 0 <= e < |texts| && BringsAbout(engine, texts[e], p);
      assert texts[..k] == texts;
      ExecuteEstablishes(engine, texts, db.tables, p, e);
    }
  }

  lemma {:induction false} RunKeepsMeaning(
    engine: Engine, db: Db, files: seq<MigrationFile>, faults: nat -> Fault, i: nat,
    applied: seq<string>, skipped: seq<string>, file: MigrationFile, p: set<string> -> bool)
    requires i <= |files| && Keeps(engine, p) && Establishes(engine, file, p) && RecordedMeans(file, p, db)
    requires forall next | next in files && next.name == file.name :: next == file
    ensures RecordedMeans(file, p, RunFrom(engine, db, files, faults, i, applied, skipped).db)
    decreases |files| - i
  {
    hide Keeps, Establishes, RecordedMeans;
    if i < |files| {
      FileKeepsMeaning(engine, db, files[i], faults(i), file, p);
      var r := MigrateFile(engine, db, files[i], faults(i));
      hide MigrateFile;
      match r
      case Skipped(db') => RunKeepsMeaning(engine, db', files, faults, i + 1, applied, skipped + [files[i].name], file, p);
      case Applied(db') => RunKeepsMeaning(engine, db', files, faults, i + 1, applied + [files[i].name], skipped, file, p);
      case Stopped(_, _) =>
    }
  }

  /** Recorded means executed: over any sequence of runs and crashes that begins with an empty
      ledger, whatever some text of a file brings about, and nothing undoes, is so once the file is
      recorded; unless its sentinel table told that it was so before. */
  lemma {:induction false} RecordedHasRun(
    engine: Engine, registry: seq<MigrationFile>, tables: set<string>, attempts: seq<Attempt>,
    file: MigrationFile, p: set<string> -> bool)
    requires Registry(registry) && file in registry && forall a | a in attempts :: a.n <= |registry|
    requires Keeps(engine, p) && Establishes(engine, file, p)
    ensures RecordedMeans(file, p, AfterAttempts(engine, registry, EMPTY_DB.(tables := tables), attempts))
    decreases |attempts|
  {
    if attempts != [] {
      var prefix, last := attempts[..|attempts| - 1], attempts[|attempts| - 1];
      RecordedHasRun(engine, registry, tables, prefix, file, p);
      var db := AfterAttempts(engine, registry, EMPTY_DB.(tables := tables), prefix);
      var files := registry[..last.n];
      forall next | next in files && next.name == file.name
        ensures next == file
      {
        var i :| 0 <= i < |files| && files[i] == next;
        var j :| 0 <= j < |registry| && registry[j] == file;
        assert registry[i] == next;
      }
      RunKeepsMeaning(engine, db, files, last.faults, 0, [], [], file, p);
    }
  }

  // ----- Exactly what was executed -----

  /** An engine that only remembers what it was given. */
  ghost predicate Remembers(engine: Engine) {
    forall text, tables :: engine.execute(text, tables) == tables + {text}
  }

  lemma {:induction false} RemembersAll(engine: Engine, texts: seq<string>, tables: set<string>)
    requires Remembers(engine)
    ensures ExecuteAll(engine, texts, tables) == tables + set text | text in texts
    decreases |texts|
  {
    if texts != [] {
      RemembersAll(engine, texts[1..], tables + {texts[0]});
      assert texts == [texts[0]] + texts[1..];
    }
  }

  /** Of a transactional file: recorded means committed or found by its sentinel, and committed
      means remembered. Of any other: recorded means that every statement is remembered, or that
      it was found by its sentinel. */
  ghost predicate RecordedExactly(file: MigrationFile, db: Db) {
    && (file.name in db.ledger ==>
          || SentinelExists(file, db.tables)
          || (if file.transactional then file.name in db.committed else forall text | text in TextsOf(file) :: text in db.tables))
    && (file.transactional && file.name in db.committed ==> file.contents in db.tables)
  }

  /** Nothing else is remembered: a text is from the start, or the contents of a transactional
      file that committed, or a statement of a file that is not transactional. */
  ghost predicate NothingElse(registry: seq<MigrationFile>, start: set<string>, db: Db) {
    forall text | text in db.tables ::
      || text in start
      || exists i :: 0 <= i < |registry| && text in TextsOf(registry[i])
                     && (registry[i].transactional ==> registry[i].name in db.committed)
  }

  ghost predicate Exactly(registry: seq<MigrationFile>, start: set<string>, db: Db) {
    (forall i | 0 <= i < |registry| :: RecordedExactly(registry[i], db)) && NothingElse(registry, start, db)
  }

  /** The database grows by one file's texts, or by some of its statements. */
  lemma FileGrows(engine: Engine, db: Db, file: MigrationFile, fault: Fault)
    requires Remembers(engine)
    ensures var db' := MigrateFile(engine, db, file, fault).db;
            && db.tables <= db'.tables
            && (forall text | text in db'.tables && text !in db.tables ::
                  text in TextsOf(file) && (file.transactional ==> file.name in db'.committed))
            && (forall name | name in db.committed :: name in db'.committed)
            && (forall name | name in db'.committed && name !in db.committed ::
                  name == file.name && file.transactional && file.contents in db'.tables)
            && (forall name | name in db'.ledger && name !in db.ledger :: name == file.name)
            && (file.name in db'.ledger && file.name !in db.ledger ==>
                  || SentinelExists(file, db.tables)
                  || (if file.transactional then file.name in db'.committed
                      else forall text | text in TextsOf(file) :: text in db'.tables))
  {
    var k := FileOutcome(engine, db, file, fault);
    hide MigrateFile, SqlSplitter.Statements, SentinelExists;
    var texts := TextsOf(file);
    RemembersAll(engine, texts[..k], db.tables);
    hide ExecuteAll, Remembers;
    assert forall text | text in texts[..k] :: text in texts;
    assert texts[..|texts|] == texts;
    assert file.transactional ==> texts == [file.contents] && texts[..0] == [] && texts[..1] == texts;
  }

  lemma FileKeepsExactly(
    engine: Engine, registry: seq<MigrationFile>, start: set<string>, db: Db, i: nat, fault: Fault)
    requires Remembers(engine) && Registry(registry) && i < |registry| && Exactly(registry, start, db)
    ensures Exactly(registry, start, MigrateFile(engine, db, registry[i], fault).db)
  {
    FileGrows(engine, db, registry[i], fault);
    hide MigrateFile, TextsOf;
    var db' := MigrateFile(engine, db, registry[i], fault).db;
    forall j | 0 <= j < |registry|
      ensures RecordedExactly(registry[j], db')
    {
      assert RecordedExactly(registry[j], db);
      assert registry[j].name == registry[i].name ==> j == i;
    }
    forall text | text in db'.tables
      ensures || text in start
              || exists j :: 0 <= j < |registry| && text in TextsOf(registry[j])
                             && (registry[j].transactional ==> registry[j].name in db'.committed)
    {
      if text in db.tables && text !in start {
        var j :| 0 <= j < |registry| && text in TextsOf(registry[j])
                 && (registry[j].transactional ==> registry[j].name in db.committed);
      }
    }
  }

  lemma {:induction false} RunKeepsExactly(
    engine: Engine, registry: seq<MigrationFile>, start: set<string>, db: Db, n: nat, faults: nat -> Fault, i: nat,
    applied: seq<string>, skipped: seq<string>)
    requires Remembers(engine) && Registry(registry) && i <= n <= |registry| && Exactly(registry, start, db)
    ensures Exactly(registry, start, RunFrom(engine, db, registry[..n], faults, i, applied, skipped).db)
    decreases n - i
  {
    hide Exactly, Remembers, MigrateFile;
    if i < n {
      FileKeepsExactly(engine, registry, start, db, i, faults(i));
      var file := registry[..n][i];
      match MigrateFile(engine, db, file, faults(i))
      case Skipped(db') => RunKeepsExactly(engine, registry, start, db', n, faults, i + 1, applied, skipped + [file.name]);
      case Applied(db') => RunKeepsExactly(engine, registry, start, db', n, faults, i + 1, applied + [file.name], skipped);
      case Stopped(_, _) =>
    }
  }

  /** Over any sequence of runs and crashes, told by an engine that only remembers: what was
      executed is what is recorded, committed or found by a sentinel, and nothing else but
      statements of files that are not transactional. */
  lemma {:induction false} ExecutedExactly(
    engine: Engine, registry: seq<MigrationFile>, tables: set<string>, attempts: seq<Attempt>)
    requires Remembers(engine) && Registry(registry) && forall a | a in attempts :: a.n <= |registry|
    ensures Exactly(registry, tables, AfterAttempts(engine, registry, EMPTY_DB.(tables := tables), attempts))
    decreases |attempts|
  {
    if attempts != [] {
      hide Exactly, Remembers;
      var prefix, last := attempts[..|attempts| - 1], attempts[|attempts| - 1];
      ExecutedExactly(engine, registry, tables, prefix);
      var db := AfterAttempts(engine, registry, EMPTY_DB.(tables := tables), prefix);
      RunKeepsExactly(engine, registry, tables, db, last.n, last.faults, 0, [], []);
    }
  }
}
