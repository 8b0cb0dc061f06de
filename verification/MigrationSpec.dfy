/**
 What one call of `Migrate` does to a database, as a function of the outcome of each
 of its SQL statements. Both migrators are proved against this one specification;
 they differ only in how a stored version cell is read.
 */
module MigrationSpec {
  import opened Common

  /** The value in the `version` column of one row of `schema_migrations`. */
  datatype Cell = Null | Integer(value: int64)

  /** `versions` is None as long as the table `schema_migrations` does not exist. */
  datatype Database<+S> = Database(schema: S, versions: Option<seq<Cell>>)

  datatype Migrations = Migrations(ups: seq<string>, downs: seq<string>) {
    /** What both constructors guarantee; a Go slice has fewer than 2^63 elements. */
    ghost predicate Valid() {
      |ups| == |downs| < TWO63
    }
  }

  /** A script either completes, or breaks off and leaves some of its work behind. */
  datatype Effect<+S> = Done(schema: S) | Broken(leftover: S)

  type Script<!S> = (string, S) -> Effect<S>

  /** The statements of one `Migrate` call, each of which may fail. */
  datatype Stmt =
    | Begin
    | VersionSchema
    | SelectVersion
    | RunScript(index: nat)
    | DeleteRows
    | InsertRow
    | Commit

  predicate NoFaults(stmt: Stmt) {
    true
  }

  datatype Reason =
    | TargetTooHigh
    | DatabaseTooHigh(version: uint64)
    | At(stmt: Stmt)

  /** How `Rows.Scan` into a uint64 treats a cell: NULL and negative values are errors. */
  function ScanCell(c: Cell): Option<uint64> {
    if c.Integer? && 0 <= c.value then Some(c.value) else None
  }

  /** How `uint64(stmt.ColumnInt64(0))` treats a cell: NULL is 0, negative values wrap. */
  function ColumnCell(c: Cell): Option<uint64> {
    if c.Null? then Some(0) else Some(ToUnsigned(c.value))
  }

  function StoredVersion(rows: seq<Cell>, read: Cell -> Option<uint64>): Option<uint64> {
    if rows == [] then Some(0) else read(rows[0])
  }

  /** CREATE TABLE IF NOT EXISTS: a missing table becomes an empty one, an existing one is kept row for row. */
  function EnsureVersions<S>(db: Database<S>): (ready: Database<S>)
    ensures ready.schema == db.schema && ready.versions.Some?
    ensures db.versions.None? ==> ready.versions.value == []
    ensures db.versions.Some? ==> ready == db
  {
    if db.versions.Some? then db else db.(versions := Some([]))
  }

  /** One script to run: its position in the list and its text. */
  datatype Job = Job(index: nat, text: string)

  /** How many scripts lie between two versions. */
  function Distance(version: nat, target: nat): nat {
    if target < version then version - target else target - version
  }

  /** The k-th script between two versions: ups ascending, or downs strictly descending. */
  function PlanJob(m: Migrations, version: nat, target: nat, k: nat): Job
    requires m.Valid() && version <= |m.ups| && target <= |m.ups|
    requires k < Distance(version, target)
  {
    if target < version then Job(version - 1 - k, m.downs[version - 1 - k])
    else Job(version + k, m.ups[version + k])
  }

  /** The first k scripts between two versions. */
  function Plan(m: Migrations, version: nat, target: nat, k: nat): (plan: seq<Job>)
    requires m.Valid() && version <= |m.ups| && target <= |m.ups|
    requires k <= Distance(version, target)
    ensures |plan| == k
  {
    if k == 0 then [] else Plan(m, version, target, k - 1) + [PlanJob(m, version, target, k - 1)]
  }

  lemma {:induction false} PlanHolds(m: Migrations, version: nat, target: nat, k: nat, i: nat)
    requires m.Valid() && version <= |m.ups| && target <= |m.ups|
    requires i < k <= Distance(version, target)
    ensures Plan(m, version, target, k)[i] == PlanJob(m, version, target, i)
  {
    if i < k - 1 {
      PlanHolds(m, version, target, k - 1, i);
    }
  }

  /** Every script between two versions, in order. */
  function FullPlan(m: Migrations, version: nat, target: nat): seq<Job>
    requires m.Valid() && version <= |m.ups| && target <= |m.ups|
  {
    Plan(m, version, target, Distance(version, target))
  }

  /** The scripts started by then if this is the first statement that fails: none behind a failing script. */
  function Attempted(m: Migrations, version: nat, target: nat, failed: Option<Stmt>): seq<Job>
    requires m.Valid() && version <= |m.ups| && target <= |m.ups|
  {
    match failed
    case Some(RunScript(index)) =>
      var n := if target < version then version - index else index + 1 - version;
      if 0 <= n <= Distance(version, target) then Plan(m, version, target, n) else []
    case _ => FullPlan(m, version, target)
  }

  /** The scripts that a whole call starts, given how it ends. */
  function StartedScripts<S>(m: Migrations, read: Cell -> Option<uint64>, target: uint64, db: Database<S>, error: Option<Reason>): seq<Job>
    requires m.Valid()
  {
    var version := StoredVersion(EnsureVersions(db).versions.value, read);
    if |m.ups| < target || version.None? || |m.ups| < version.value then []
    else
      match error
      case None => FullPlan(m, version.value, target)
      case Some(At(stmt)) =>
        if stmt in {Begin, VersionSchema, SelectVersion} then [] else Attempted(m, version.value, target, Some(stmt))
      case _ => []
  }

  /**
   Exactly one script for each version in between, each at an index in range: the downs
   from version - 1 strictly down to the target, or the ups from the version strictly up.
   */
  lemma PlanOrder(m: Migrations, version: nat, target: nat, i: nat)
    requires m.Valid() && version <= |m.ups| && target <= |m.ups|
    requires i < |FullPlan(m, version, target)|
    ensures var plan := FullPlan(m, version, target);
            var index := plan[i].index;
            && |plan| == Distance(version, target) && index < |m.ups|
            && (target < version ==> target <= index < version && plan[i].text == m.downs[index])
            && (version < target ==> version <= index < target && plan[i].text == m.ups[index])
            && (i + 1 < |plan| ==> plan[i + 1].index == if target < version then index - 1 else index + 1)
  {
    PlanHolds(m, version, target, Distance(version, target), i);
    if i + 1 < Distance(version, target) {
      PlanHolds(m, version, target, Distance(version, target), i + 1);
    }
  }

  /**
   Runs the scripts between two versions from the k-th on; the error is the index of the
   first script that does not complete.
   */
  function RunFrom<S>(m: Migrations, run: Script<S>, ok: Stmt -> bool, version: nat, target: nat, k: nat, schema: S): Result<S, nat>
    requires m.Valid() && version <= |m.ups| && target <= |m.ups|
    requires k <= Distance(version, target)
    decreases Distance(version, target) - k
  {
    if k == Distance(version, target) then Ok(schema)
    else
      var job := PlanJob(m, version, target, k);
      if !ok(RunScript(job.index)) then Err(job.index)
      else
        match run(job.text, schema)
        case Done(next) => RunFrom(m, run, ok, version, target, k + 1, next)
        case Broken(_) => Err(job.index)
  }

  /** After k scripts the rest of the plan decides the result of the whole. */
  ghost predicate Underway<S>(m: Migrations, run: Script<S>, ok: Stmt -> bool, version: nat, target: nat, from: S,
                              k: nat, schema: S, done: seq<Job>)
    requires m.Valid() && version <= |m.ups| && target <= |m.ups|
  {
    && k <= Distance(version, target)
    && done == Plan(m, version, target, k)
    && RunFrom(m, run, ok, version, target, 0, from) == RunFrom(m, run, ok, version, target, k, schema)
  }

  lemma ScriptCompletes<S>(m: Migrations, run: Script<S>, ok: Stmt -> bool, version: nat, target: nat, from: S,
                           k: nat, schema: S, done: seq<Job>)
    requires m.Valid() && version <= |m.ups| && target <= |m.ups| && k < Distance(version, target)
    requires Underway(m, run, ok, version, target, from, k, schema, done)
    requires var job := PlanJob(m, version, target, k); ok(RunScript(job.index)) && run(job.text, schema).Done?
    ensures var job := PlanJob(m, version, target, k);
            Underway(m, run, ok, version, target, from, k + 1, run(job.text, schema).schema, done + [job])
  {
  }

  lemma ScriptFails<S>(m: Migrations, run: Script<S>, ok: Stmt -> bool, version: nat, target: nat, from: S,
                       k: nat, schema: S, done: seq<Job>)
    requires m.Valid() && version <= |m.ups| && target <= |m.ups| && k < Distance(version, target)
    requires Underway(m, run, ok, version, target, from, k, schema, done)
    requires var job := PlanJob(m, version, target, k); !ok(RunScript(job.index)) || run(job.text, schema).Broken?
    ensures var job := PlanJob(m, version, target, k);
            && RunFrom(m, run, ok, version, target, 0, from) == Err(job.index)
            && Attempted(m, version, target, Some(RunScript(job.index))) == done + [job]
  {
    assert Plan(m, version, target, k + 1) == done + [PlanJob(m, version, target, k)];
  }

  /** The statements inside the transaction: the database that is ready to be committed. */
  function Prepared<S>(m: Migrations, run: Script<S>, ok: Stmt -> bool, read: Cell -> Option<uint64>,
                       target: uint64, db: Database<S>): Result<Database<S>, Reason>
    requires m.Valid() && target <= |m.ups|
  {
    if !ok(VersionSchema) then Err(At(VersionSchema))
    else if !ok(SelectVersion) then Err(At(SelectVersion))
    else
      var ready := EnsureVersions(db);
      match StoredVersion(ready.versions.value, read)
      case None => Err(At(SelectVersion))
      case Some(version) =>
        if version == target then Ok(ready)
        else if |m.ups| < version then Err(DatabaseTooHigh(version))
        else
          match RunFrom(m, run, ok, version, target, 0, ready.schema)
          case Err(index) => Err(At(RunScript(index)))
          case Ok(schema) =>
            if !ok(DeleteRows) then Err(At(DeleteRows))
            else if !ok(InsertRow) then Err(At(InsertRow))
            else Ok(Database(schema, Some([Integer(target)])))
  }

  /** The database committed by a successful `Migrate`, or why the call fails. */
  function Migrated<S>(m: Migrations, run: Script<S>, ok: Stmt -> bool, read: Cell -> Option<uint64>,
                       target: uint64, db: Database<S>): Result<Database<S>, Reason>
    requires m.Valid()
  {
    if |m.ups| < target then Err(TargetTooHigh)
    else if !ok(Begin) then Err(At(Begin))
    else
      var prepared := Prepared(m, run, ok, read, target, db);
      if prepared.Ok? && !ok(Commit) then Err(At(Commit)) else prepared
  }

  /** Which version the column read makes of the first cell. */
  function ColumnVersion(c: Cell): uint64 {
    match c
    case Null => 0
    case Integer(value) => if value < 0 then value + TWO64 else value
  }

  /**
   A call without accidental faults is refused for the first of these reasons: the target
   does not exist, the version cannot be read, or it is above the number of scripts, in
   which case it is the number reported. Otherwise only a script can make it fail. A table
   that is missing or empty stands for version 0.
   */
  lemma WhyRefused<S>(m: Migrations, run: Script<S>, target: uint64, db: Database<S>, column: bool)
    requires m.Valid()
    ensures var r := Migrated(m, run, NoFaults, if column then ColumnCell else ScanCell, target, db);
            if |m.ups| < target then r == Err(TargetTooHigh)
            else if db.versions.None? || db.versions.value == [] then
              if target == 0 then r == Ok(Database(db.schema, Some([])))
              else r.Err? ==> r.error.At? && r.error.stmt.RunScript?
            else
              var cell := db.versions.value[0];
              if !column && (cell.Null? || cell.value < 0) then r == Err(At(SelectVersion))
              else if |m.ups| < ColumnVersion(cell) then r == Err(DatabaseTooHigh(ColumnVersion(cell)))
              else if ColumnVersion(cell) == target then r == Ok(db)
              else r.Err? ==> r.error.At? && r.error.stmt.RunScript?
  {
  }

  /** The first row holds NULL, the one content the two migrators read differently. */
  predicate StartsWithNull<S>(db: Database<S>) {
    db.versions.Some? && db.versions.value != [] && db.versions.value[0].Null?
  }

  /** Both succeed and commit the same database, or both fail. */
  predicate SameOutcome<S(==)>(a: Result<Database<S>, Reason>, b: Result<Database<S>, Reason>) {
    a.Ok? == b.Ok? && (a.Ok? ==> a.value == b.value)
  }

  /** One call: the outcomes differ exactly when the first cell is NULL and the column read gets through. */
  lemma MigratorsAgree<S>(m: Migrations, run: Script<S>, ok: Stmt -> bool, target: uint64, db: Database<S>)
    requires m.Valid()
    ensures var scan := Migrated(m, run, ok, ScanCell, target, db);
            var column := Migrated(m, run, ok, ColumnCell, target, db);
            && (SameOutcome(scan, column) <==> !(StartsWithNull(db) && column.Ok?))
            && (StartsWithNull(db) ==> scan.Err?)
  {
    var rows := EnsureVersions(db).versions.value;
    if rows != [] && rows[0].Integer? && rows[0].value < 0 {
      assert TWO63 <= ColumnCell(rows[0]).value;
    }
  }

  function KeepSchema<S>(text: string, schema: S): Effect<S> {
    Done(schema)
  }

  lemma {:induction false} KeepSchemaCompletes<S>(m: Migrations, version: nat, target: nat, k: nat, schema: S)
    requires m.Valid() && version <= |m.ups| && target <= |m.ups|
    requires k <= Distance(version, target)
    ensures RunFrom(m, KeepSchema, NoFaults, version, target, k, schema) == Ok(schema)
    decreases Distance(version, target) - k
  {
    if k < Distance(version, target) {
      KeepSchemaCompletes(m, version, target, k + 1, schema);
    }
  }

  /** A NULL version is 0 to the column read, and a harmless script carries it to the target. */
  lemma NullVersionGetsThrough<S>(m: Migrations, target: uint64, db: Database<S>)
    requires m.Valid() && target <= |m.ups| && StartsWithNull(db)
    ensures Migrated(m, KeepSchema, NoFaults, ColumnCell, target, db).Ok?
  {
    assert StoredVersion(EnsureVersions(db).versions.value, ColumnCell) == Some(0);
    KeepSchemaCompletes(m, 0, target, 0, db.schema);
  }

  /**
   The two migrators are interchangeable on a database, whatever the scripts do and
   whichever statements fail, if and only if its first version is not NULL or the target
   does not exist. Negative versions are covered: `Scan` refuses them, and the column read
   takes them for versions above every target. NULL is refused by `Scan`, while the
   column read takes it for 0 and runs scripts on a schema of unknown version.
   */
  lemma MigratorsInterchangeable<S(!new)>(m: Migrations, target: uint64, db: Database<S>)
    requires m.Valid()
    ensures (forall run: Script<S>, ok: Stmt -> bool ::
               SameOutcome(Migrated(m, run, ok, ScanCell, target, db), Migrated(m, run, ok, ColumnCell, target, db)))
            <==> !StartsWithNull(db) || |m.ups| < target
  {
    if !StartsWithNull(db) || |m.ups| < target {
      forall run: Script<S>, ok: Stmt -> bool
        ensures SameOutcome(Migrated(m, run, ok, ScanCell, target, db), Migrated(m, run, ok, ColumnCell, target, db))
      {
        MigratorsAgree(m, run, ok, target, db);
      }
    } else {
      NullVersionGetsThrough(m, target, db);
      MigratorsAgree(m, KeepSchema, NoFaults, target, db);
    }
  }

  function AddOne(text: string, schema: int): Effect<int> {
    Done(schema + 1)
  }

  /** The disagreement is real: a NULL version and one harmless script suffice. */
  lemma NullVersionSplitsTheMigrators()
    ensures var m := Migrations(["up"], ["down"]);
            var db := Database(0, Some([Null]));
            && m.Valid()
            && Migrated(m, AddOne, NoFaults, ScanCell, 1, db) == Err(At(SelectVersion))
            && Migrated(m, AddOne, NoFaults, ColumnCell, 1, db) == Ok(Database(1, Some([Integer(1)])))
  {
    var m := Migrations(["up"], ["down"]);
    assert RunFrom(m, AddOne, NoFaults, 0, 1, 1, 1) == Ok(1);
  }
}
