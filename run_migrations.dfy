/** The migration runner (src/migrations/run_migrations.py): it lists the migration modules
    of the migrations directory, sorts them by their timestamp prefix, and runs them in
    that order (or only the one named on the command line), stopping at the first one
    that raises. Every migration module's `run()` builds its migration class and calls
    `migrate`, so a run is a sequence of `BaseMigration` steps on one `migrations` table. */
module RunMigrations {
  import opened Base
  import opened Ordering
  import opened BaseMigration

  predicate IsDigit(c: char) {
    '0' <= c <= '9'
  }

  predicate EndsWithPy(f: string) {
    |f| >= 3 && f[|f| - 3..] == ".py"
  }

  /** `re.match(r'^\d{14}_', f)`: fourteen digits, then an underscore. */
  predicate HasStampPrefix(f: string) {
    |f| >= 15 && (forall i :: 0 <= i < 14 ==> IsDigit(f[i])) && f[14] == '_'
  }

  const Excluded: seq<string> := ["__init__.py", "base_migration.py", "run_migrations.py"]

  /** The test `get_migration_files` applies to each directory entry. */
  predicate IsMigrationFile(f: string) {
    EndsWithPy(f) && f !in Excluded && HasStampPrefix(f)
  }

  /** `file[:-3]`. */
  function Stem(f: string): string
    requires EndsWithPy(f)
  {
    f[..|f| - 3]
  }

  /** The excluded names do not start with digits, so the exclusion list never changes
      which entries are kept. */
  lemma ExclusionRedundant(f: string)
    ensures IsMigrationFile(f) <==> EndsWithPy(f) && HasStampPrefix(f)
  {
    if f in Excluded {
      assert !IsDigit(f[0]);
    }
  }

  /** `s` is the stem of a kept entry of the listing. */
  predicate IsStemIn(s: string, listing: seq<string>) {
    IsMigrationFile(s + ".py") && s + ".py" in listing
  }

  /** The stems of the kept entries, in directory order. */
  function Stems(listing: seq<string>): (r: seq<string>)
    ensures |r| <= |listing|
    ensures forall k :: 0 <= k < |r| ==> IsStemIn(r[k], listing)
    ensures forall k :: 0 <= k < |listing| && IsMigrationFile(listing[k]) ==> Stem(listing[k]) in r
    decreases |listing|
  {
    if listing == [] then []
    else
      var n := |listing| - 1;
      var f := listing[n];
      var rest := Stems(listing[..n]);
      assert forall k :: 0 <= k < n ==> listing[..n][k] == listing[k];
      if IsMigrationFile(f) then
        assert Stem(f) + ".py" == f;
        rest + [Stem(f)]
      else rest
  }

  /** `get_migration_files` over the entries of `os.listdir`. */
  method GetMigrationFiles(listing: seq<string>) returns (r: seq<string>)
    ensures r == SortStr(Stems(listing))
    ensures SortedStr(r) && multiset(r) == multiset(Stems(listing))
  {
    var files := [];
    for i := 0 to |listing|
      invariant files == Stems(listing[..i])
    {
      assert listing[..i + 1][..i] == listing[..i];
      if IsMigrationFile(listing[i]) {
        files := files + [Stem(listing[i])];
      }
    }
    assert listing[..|listing|] == listing;
    r := SortStr(files);
  }

  /** The migration files are exactly the stems of the kept directory entries, in
      ascending order. */
  lemma MigrationFilesProperties(listing: seq<string>)
    ensures var r := SortStr(Stems(listing));
            && SortedStr(r)
            && (forall k :: 0 <= k < |r| ==> IsStemIn(r[k], listing))
            && (forall k :: 0 <= k < |listing| && IsMigrationFile(listing[k]) ==> Stem(listing[k]) in r)
  {
    var s := Stems(listing);
    SortStrMembers(s);
    var r := SortStr(s);
    EveryMember(s, r, (x: string) => IsStemIn(x, listing));
    SameMembers(s, r);
  }

  lemma EveryMember<T>(s: seq<T>, r: seq<T>, p: T -> bool)
    requires forall k :: 0 <= k < |s| ==> p(s[k])
    requires forall k :: 0 <= k < |r| ==> r[k] in s
    ensures forall k :: 0 <= k < |r| ==> p(r[k])
  {
    forall k | 0 <= k < |r| ensures p(r[k]) {
      var j :| 0 <= j < |s| && s[j] == r[k];
    }
  }

  lemma SameMembers<T>(s: seq<T>, r: seq<T>)
    requires forall k :: 0 <= k < |s| ==> s[k] in r
    ensures forall x :: x in s ==> x in r
  {
    forall x | x in s ensures x in r {
      var j :| 0 <= j < |s| && s[j] == x;
    }
  }

  /** The name printed for a migration: the part after the timestamp prefix. */
  function DisplayName(f: string): (r: string)
    ensures |f| > 15 ==> r == f[15..]
    ensures |f| <= 15 ==> r == f
  {
    if |f| > 15 then f[15..] else f
  }

  /** For a stem with something after its prefix the display name is that rest; a stem that
      is its prefix alone is shown whole, underscore included. */
  lemma DisplayNameOfStem(f: string)
    requires IsMigrationFile(f)
    ensures var s := Stem(f);
            s == s[..15] + DisplayName(s) || (|s| == 15 && DisplayName(s) == s && s[14] == '_')
  {
  }

  /** The message printed when the migration of module `f` raised `error`. */
  function ErrorMessage(f: string, error: string): string {
    "Error running migration " + DisplayName(f) + ": " + error
  }

  /** Which migrations a call runs. */
  datatype Plan = NoMigrations | NotFound(name: string) | Files(files: seq<string>)

  /** `run_migrations(specific_migration)` before its loop. */
  function Planned(files: seq<string>, specific: Option<string>): (p: Plan)
    ensures files == [] <==> p == NoMigrations
    ensures p.NotFound? <==> files != [] && specific.Some? && specific.value != [] && specific.value !in files
    ensures p.Files? && (specific.None? || specific.value == []) ==> p.files == files
    ensures p.Files? && specific.Some? && specific.value != [] ==> p.files == [specific.value] && specific.value in files
  {
    if files == [] then NoMigrations
    else if specific.Some? && specific.value != [] then
      if specific.value !in files then NotFound(specific.value) else Files([specific.value])
    else Files(files)
  }

  /** The migration modules that were started, the table afterwards, and the message
      printed before `sys.exit(1)` when one of them raised. */
  datatype Run = Run(table: MigrationTable, attempted: seq<string>, error: Option<string>)

  /** The loop of `run_migrations`: module `f` runs the migration class `className(f)`,
      whose `_execute` has outcome `execute(className(f))`. */
  function RunAll(t: MigrationTable, files: seq<string>, className: string -> string,
                  execute: string -> Outcome): Run
    decreases |files|
  {
    if files == [] then Run(t, [], None)
    else
      var name := className(files[0]);
      var step := Migrated(t, name, execute(name));
      if step.1.Failed? then
        Run(step.0, [files[0]], Some(ErrorMessage(files[0], step.1.error)))
      else
        var rest := RunAll(step.0, files[1..], className, execute);
        Run(rest.table, [files[0]] + rest.attempted, rest.error)
  }

  /** A migration step never removes a record. */
  lemma MigratedKeeps(t: MigrationTable, name: string, outcome: Outcome, other: string)
    ensures IsExecuted(t, other) ==> IsExecuted(Migrated(t, name, outcome).0, other)
  {
    if IsExecuted(t, other) {
      var i :| 0 <= i < |t.records| && t.records[i].name == other;
      assert Migrated(t, name, outcome).0.records[i] == t.records[i];
    }
  }

  /** Migrations run in order until the first one that raises; nothing after it runs. */
  lemma {:induction false} RunAllOrder(t: MigrationTable, files: seq<string>, className: string -> string,
                                       execute: string -> Outcome)
    ensures var r := RunAll(t, files, className, execute);
            && |r.attempted| <= |files| && r.attempted == files[..|r.attempted|]
            && (r.error.None? ==> r.attempted == files)
            && (r.error.Some? ==> r.attempted != [])
    decreases |files|
  {
    if files != [] {
      var name := className(files[0]);
      var step := Migrated(t, name, execute(name));
      if !step.1.Failed? {
        RunAllOrder(step.0, files[1..], className, execute);
        assert files == [files[0]] + files[1..];
      }
    }
  }

  /** The migration that raised had not run before, and the printed message carries its
      display name and its error. */
  lemma {:induction false} RunAllFailure(t: MigrationTable, files: seq<string>, className: string -> string,
                                         execute: string -> Outcome)
    requires Valid(t) && RunAll(t, files, className, execute).error.Some?
    ensures var r := RunAll(t, files, className, execute);
            var last := r.attempted[|r.attempted| - 1];
            && !IsExecuted(t, className(last))
            && execute(className(last)).Raised?
            && r.error.value == ErrorMessage(last, execute(className(last)).message)
    decreases |files|
  {
    RunAllOrder(t, files, className, execute);
    var name := className(files[0]);
    var step := Migrated(t, name, execute(name));
    if !step.1.Failed? {
      if !IsExecuted(t, name) {
        MigrateRecords(t, name, execute(name));
      }
      RunAllOrder(step.0, files[1..], className, execute);
      RunAllFailure(step.0, files[1..], className, execute);
      var rest := RunAll(step.0, files[1..], className, execute);
      MigratedKeeps(t, name, execute(name), className(rest.attempted[|rest.attempted| - 1]));
    }
  }

  /** A run keeps the table valid, only adds rows, and leaves every started migration on
      record. */
  lemma RunAllRecords(t: MigrationTable, files: seq<string>, className: string -> string,
                      execute: string -> Outcome)
    requires Valid(t)
    ensures var r := RunAll(t, files, className, execute);
            && Valid(r.table)
            && (forall k :: 0 <= k < |r.attempted| ==> IsExecuted(r.table, className(r.attempted[k])))
            && |t.records| <= |r.table.records| && r.table.records[..|t.records|] == t.records
  {
    RunAllGrows(t, files, className, execute);
    RunAllAttempted(t, files, className, execute);
  }

  /** A migration step keeps the table valid, only adds a row, and leaves its name on record. */
  lemma MigratedGrows(t: MigrationTable, name: string, outcome: Outcome)
    requires Valid(t)
    ensures var t' := Migrated(t, name, outcome).0;
            && Valid(t') && IsExecuted(t', name)
            && |t.records| <= |t'.records| && t'.records[..|t.records|] == t.records
  {
    if !IsExecuted(t, name) {
      MigrateRecords(t, name, outcome);
    }
  }

  /** A name on record stays on record in a table that extends the rows. */
  lemma ExecutedKept(t: MigrationTable, t': MigrationTable, name: string)
    requires IsExecuted(t, name)
    requires |t.records| <= |t'.records| && t'.records[..|t.records|] == t.records
    ensures IsExecuted(t', name)
  {
    var i :| 0 <= i < |t.records| && t.records[i].name == name;
    assert t'.records[i] == t'.records[..|t.records|][i];
  }

  lemma {:induction false} RunAllGrows(t: MigrationTable, files: seq<string>, className: string -> string,
                                       execute: string -> Outcome)
    requires Valid(t)
    ensures var r := RunAll(t, files, className, execute);
            && Valid(r.table)
            && |t.records| <= |r.table.records| && r.table.records[..|t.records|] == t.records
    decreases |files|
  {
    if files != [] {
      var name := className(files[0]);
      var step := Migrated(t, name, execute(name));
      MigratedGrows(t, name, execute(name));
      if !step.1.Failed? {
        RunAllGrows(step.0, files[1..], className, execute);
        var rest := RunAll(step.0, files[1..], className, execute);
        assert rest.table.records[..|t.records|] == rest.table.records[..|step.0.records|][..|t.records|];
      }
    }
  }

  lemma {:induction false} RunAllAttempted(t: MigrationTable, files: seq<string>, className: string -> string,
                                           execute: string -> Outcome)
    requires Valid(t)
    ensures var r := RunAll(t, files, className, execute);
            forall k :: 0 <= k < |r.attempted| ==> IsExecuted(r.table, className(r.attempted[k]))
    decreases |files|
  {
    if files != [] {
      var name := className(files[0]);
      var step := Migrated(t, name, execute(name));
      MigratedGrows(t, name, execute(name));
      if !step.1.Failed? {
        RunAllAttempted(step.0, files[1..], className, execute);
        RunAllGrows(step.0, files[1..], className, execute);
        var rest := RunAll(step.0, files[1..], className, execute);
        ExecutedKept(step.0, rest.table, name);
        RunAllCons(t, files, className, execute);
        AllExecutedCons(rest.table, files[0], rest.attempted, className);
      }
    }
  }

  lemma AllExecutedCons(t: MigrationTable, f: string, fs: seq<string>, className: string -> string)
    requires IsExecuted(t, className(f))
    requires forall k :: 0 <= k < |fs| ==> IsExecuted(t, className(fs[k]))
    ensures forall k :: 0 <= k < |[f] + fs| ==> IsExecuted(t, className(([f] + fs)[k]))
  {
    forall k | 0 <= k < |[f] + fs| ensures IsExecuted(t, className(([f] + fs)[k])) {
      if k > 0 {
        assert ([f] + fs)[k] == fs[k - 1];
      }
    }
  }

  /** When every migration of the list is already recorded, a run starts each of them,
      changes nothing and completes. */
  lemma {:induction false} RunAllRecorded(t: MigrationTable, files: seq<string>, className: string -> string,
                                          execute: string -> Outcome)
    requires forall k :: 0 <= k < |files| ==> IsExecuted(t, className(files[k]))
    ensures RunAll(t, files, className, execute) == Run(t, files, None)
    decreases |files|
  {
    if files != [] {
      assert IsExecuted(t, className(files[0]));
      assert forall k :: 0 <= k < |files[1..]| ==> files[1..][k] == files[k + 1];
      RunAllRecorded(t, files[1..], className, execute);
      assert files == [files[0]] + files[1..];
    }
  }

  /** Re-running a run that completed changes nothing and completes again. */
  lemma RerunIsNoOp(t: MigrationTable, files: seq<string>, className: string -> string, execute: string -> Outcome)
    requires Valid(t) && RunAll(t, files, className, execute).error.None?
    ensures var r := RunAll(t, files, className, execute);
            RunAll(r.table, files, className, execute) == Run(r.table, files, None)
  {
    RunAllOrder(t, files, className, execute);
    RunAllRecords(t, files, className, execute);
    var r := RunAll(t, files, className, execute);
    RunAllRecorded(r.table, files, className, execute);
  }

  /** A re-run after a failure does not stop at the migration that failed: its failure is
      on record, so its `migrate` returns without running it again. */
  lemma FailureNotRetried(t: MigrationTable, files: seq<string>, className: string -> string, execute: string -> Outcome)
    requires Valid(t) && RunAll(t, files, className, execute).error.Some?
    ensures var r := RunAll(t, files, className, execute);
            var last := r.attempted[|r.attempted| - 1];
            Migrated(r.table, className(last), execute(className(last))) == (r.table, AlreadyExecuted)
  {
    RunAllOrder(t, files, className, execute);
    RunAllRecords(t, files, className, execute);
  }

  method Migrate(table: Migrations, name: string, outcome: Outcome) returns (r: MigrateResult)
    requires Valid(table.Table())
    modifies table
    ensures (table.Table(), r) == Migrated(old(table.Table()), name, outcome)
    ensures Valid(table.Table())
  {
    r := table.Migrate(name, outcome);
  }

  /** The modules `done` put before a run: the loop invariant of `RunFiles` is that the
      whole run is the modules done so far followed by the run on the rest. */
  function Prepend(done: seq<string>, rest: Run): Run {
    Run(rest.table, done + rest.attempted, rest.error)
  }

  /** One iteration of `RunFiles`: after the first remaining module the invariant holds
      for the others, or the run stops with that module's error. */
  lemma RunAllStep(whole: Run, done: seq<string>, t: MigrationTable, rest: seq<string>,
                   className: string -> string, execute: string -> Outcome, t': MigrationTable, result: MigrateResult)
    requires rest != [] && whole == Prepend(done, RunAll(t, rest, className, execute))
    requires (t', result) == Migrated(t, className(rest[0]), execute(className(rest[0])))
    ensures result.Failed? ==> whole == Run(t', done + [rest[0]], Some(ErrorMessage(rest[0], result.error)))
    ensures !result.Failed? ==> whole == Prepend(done + [rest[0]], RunAll(t', rest[1..], className, execute))
  {
    RunAllCons(t, rest, className, execute);
    if !result.Failed? {
      var later := RunAll(t', rest[1..], className, execute);
      assert done + ([rest[0]] + later.attempted) == done + [rest[0]] + later.attempted;
    }
  }

  /** One unfolding of `RunAll` on a non-empty list. */
  lemma RunAllCons(t: MigrationTable, files: seq<string>, className: string -> string, execute: string -> Outcome)
    requires files != []
    ensures var name := className(files[0]);
            var step := Migrated(t, name, execute(name));
            var rest := RunAll(step.0, files[1..], className, execute);
            && (step.1.Failed? ==>
                  RunAll(t, files, className, execute) ==
                  Run(step.0, [files[0]], Some(ErrorMessage(files[0], step.1.error))))
            && (!step.1.Failed? ==>
                  RunAll(t, files, className, execute) == Run(rest.table, [files[0]] + rest.attempted, rest.error))
  {
  }

  /** The loop of `run_migrations` over the planned modules. */
  method RunFiles(table: Migrations, files: seq<string>, className: string -> string, execute: string -> Outcome)
    returns (attempted: seq<string>, error: Option<string>)
    requires Valid(table.Table())
    modifies table
    ensures Run(table.Table(), attempted, error) == RunAll(old(table.Table()), files, className, execute)
    ensures Valid(table.Table())
  {
    attempted, error := [], None;
    ghost var whole := RunAll(table.Table(), files, className, execute);
    assert files[..0] + whole.attempted == whole.attempted;
    var i := 0;
    while i < |files|
      invariant 0 <= i <= |files| && Valid(table.Table())
      invariant attempted == files[..i] && error.None?
      invariant whole == Prepend(files[..i], RunAll(table.Table(), files[i..], className, execute))
      decreases |files| - i
    {
      var f := files[i];
      ghost var before := table.Table();
      var result := Migrate(table, className(f), execute(className(f)));
      assert files[i..][0] == f && files[i..][1..] == files[i + 1..];
      RunAllStep(whole, files[..i], before, files[i..], className, execute, table.Table(), result);
      attempted := attempted + [f];
      assert attempted == files[..i + 1];
      if result.Failed? {
        error := Some(ErrorMessage(f, result.error));
        return;
      }
      i := i + 1;
    }
    assert files[..i] == files && files[i..] == [] && files + [] == files;
  }

  /** `run_migrations(specific_migration)` over a directory listing. It returns the plan,
      the modules it started and the error message when it stopped with exit status 1. */
  method RunMigrations(table: Migrations, listing: seq<string>, specific: Option<string>,
                       className: string -> string, execute: string -> Outcome)
    returns (plan: Plan, attempted: seq<string>, error: Option<string>)
    requires Valid(table.Table())
    modifies table
    ensures plan == Planned(SortStr(Stems(listing)), specific)
    ensures !plan.Files? ==> attempted == [] && error.None? && table.Table() == old(table.Table())
    ensures plan.Files? ==>
              Run(table.Table(), attempted, error) == RunAll(old(table.Table()), plan.files, className, execute)
    ensures Valid(table.Table())
  {
    var files := GetMigrationFiles(listing);
    plan := Planned(files, specific);
    attempted, error := [], None;
    if files == [] {
      return;
    }
    if specific.Some? && specific.value != [] {
      if specific.value !in files {
        return;
      }
      files := [specific.value];
    }
    attempted, error := RunFiles(table, files, className, execute);
  }
}
