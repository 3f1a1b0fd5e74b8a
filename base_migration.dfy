/** Run-once migrations (src/migrations/base_migration.py). The `migrations` table holds
    one row per migration name (UNIQUE); `migrate` runs `_execute` only when no row with
    the migration's name exists, and records the outcome, success or failure, so a
    migration that has been attempted is never attempted again. */
module BaseMigration {

  datatype MigrationRecord = MigrationRecord(id: nat, name: string, success: bool)

  datatype MigrationTable = MigrationTable(records: seq<MigrationRecord>, nextId: nat)

  predicate Valid(t: MigrationTable) {
    && (forall i, j :: 0 <= i < j < |t.records| ==> t.records[i].name != t.records[j].name)
    && (forall i, j :: 0 <= i < j < |t.records| ==> t.records[i].id < t.records[j].id)
    && (forall i :: 0 <= i < |t.records| ==> t.records[i].id < t.nextId)
  }

  /** What `_execute` does: return, or raise an exception with a message. */
  datatype Outcome = Done | Raised(message: string)

  /** The base class's `_execute`. */
  const BaseExecute: Outcome := Raised("Concrete migration classes must implement _execute()")

  /** What `migrate` does for the caller: nothing, a completed run, or a re-raised error. */
  datatype MigrateResult = AlreadyExecuted | Completed | Failed(error: string)

  /** `_is_migration_executed`: some row carries this name, whatever its outcome. */
  predicate IsExecuted(t: MigrationTable, name: string) {
    exists i :: 0 <= i < |t.records| && t.records[i].name == name
  }

  /** `migrate`: the new table and what the caller sees. */
  function Migrated(t: MigrationTable, name: string, outcome: Outcome): (MigrationTable, MigrateResult) {
    if IsExecuted(t, name) then (t, AlreadyExecuted)
    else
      var t' := MigrationTable(t.records + [MigrationRecord(t.nextId, name, outcome.Done?)], t.nextId + 1);
      match outcome
      case Done => (t', Completed)
      case Raised(e) => (t', Failed(e))
  }

  /** A first call records exactly one row for the name, with success iff `_execute`
      returned, reports the outcome, and keeps names unique. */
  lemma MigrateRecords(t: MigrationTable, name: string, outcome: Outcome)
    requires Valid(t) && !IsExecuted(t, name)
    ensures var (t', r) := Migrated(t, name, outcome);
            && Valid(t')
            && t'.records == t.records + [MigrationRecord(t.nextId, name, outcome.Done?)]
            && (outcome.Done? ==> r == Completed)
            && (outcome.Raised? ==> r == Failed(outcome.message))
            && IsExecuted(t', name)
  {
    var t' := Migrated(t, name, outcome).0;
    assert t'.records[|t.records|].name == name;
    forall i | 0 <= i < |t.records| ensures t.records[i].name != name {
    }
  }

  /** A second call is a no-op whatever `_execute` would now do: a failed migration is
      never retried. */
  lemma MigrateOnce(t: MigrationTable, name: string, first: Outcome, second: Outcome)
    requires Valid(t)
    ensures var t1 := Migrated(t, name, first).0;
            Migrated(t1, name, second) == (t1, AlreadyExecuted)
  {
    if !IsExecuted(t, name) {
      MigrateRecords(t, name, first);
    }
  }

  /** The base class itself always fails on its first run and records the failure. */
  lemma BaseMigrationFails(t: MigrationTable, name: string)
    requires Valid(t) && !IsExecuted(t, name)
    ensures var (t', r) := Migrated(t, name, BaseExecute);
            && r == Failed("Concrete migration classes must implement _execute()")
            && t'.records[|t.records|] == MigrationRecord(t.nextId, name, false)
  {
  }

  /** The `migrations` table of the session. */
  class Migrations {
    var records: seq<MigrationRecord>
    var nextId: nat

    function Table(): MigrationTable
      reads this
    {
      MigrationTable(records, nextId)
    }

    constructor ()
      ensures Table() == MigrationTable([], 1) && Valid(Table())
    {
      records, nextId := [], 1;
    }

    /** `_is_migration_executed`: `filter(name == ...).first() is not None`. */
    method IsMigrationExecuted(name: string) returns (b: bool)
      ensures b <==> IsExecuted(Table(), name)
    {
      var i := 0;
      while i < |records|
        invariant 0 <= i <= |records|
        invariant forall k :: 0 <= k < i ==> records[k].name != name
      {
        if records[i].name == name {
          return true;
        }
        i := i + 1;
      }
      return false;
    }

    /** `_mark_migration_executed`. */
    method MarkMigrationExecuted(name: string, success: bool)
      modifies this
      ensures records == old(records) + [MigrationRecord(old(nextId), name, success)]
      ensures nextId == old(nextId) + 1
    {
      records := records + [MigrationRecord(nextId, name, success)];
      nextId := nextId + 1;
    }

    /** `BaseMigration.migrate` for a migration called `name` (its class name) whose
        `_execute` has the given outcome. */
    method Migrate(name: string, outcome: Outcome) returns (r: MigrateResult)
      requires Valid(Table())
      modifies this
      ensures (Table(), r) == Migrated(old(Table()), name, outcome)
      ensures Valid(Table())
    {
      var executed := IsMigrationExecuted(name);
      if executed {
        return AlreadyExecuted;
      }
      MigrateRecords(Table(), name, outcome);
      match outcome {
        case Done =>
          MarkMigrationExecuted(name, true);
          r := Completed;
        case Raised(e) =>
          MarkMigrationExecuted(name, false);
          r := Failed(e);
      }
    }
  }
}
