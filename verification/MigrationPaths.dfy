/** Whole runs of migration calls: the schema is a function of the recorded version. */
module MigrationPaths {
  import opened Common
  import opened MigrationSpec

  /** The two packages, which may be used in turn on one database. */
  datatype Kind = Transaction | Savepoint

  function Reader(kind: Kind): Cell -> Option<uint64> {
    if kind.Transaction? then ScanCell else ColumnCell
  }

  /** The schema that the first `version` up scripts make of the initial schema. */
  function Reached<S>(m: Migrations, run: Script<S>, base: S, version: nat): Result<S, nat>
    requires m.Valid() && version <= |m.ups|
  {
    RunFrom(m, run, NoFaults, 0, version, 0, base)
  }

  /** Wherever the up scripts lead, each down script leads one step back. */
  ghost predicate Undoes<S>(m: Migrations, run: Script<S>, base: S)
    requires m.Valid()
  {
    forall i: nat :: i < |m.ups| && Reached(m, run, base, i).Ok? && Reached(m, run, base, i + 1).Ok? ==>
                       run(m.downs[i], Reached(m, run, base, i + 1).value) == Done(Reached(m, run, base, i).value)
  }

  /** Run where the up scripts lead, a down script leads one step back, or breaks off. */
  ghost predicate BackOrBroken<S>(m: Migrations, run: Script<S>, base: S, i: nat)
    requires m.Valid() && i < |m.ups|
  {
    Reached(m, run, base, i).Ok? && Reached(m, run, base, i + 1).Ok? ==>
      var back := run(m.downs[i], Reached(m, run, base, i + 1).value);
      back.Broken? || back == Done(Reached(m, run, base, i).value)
  }

  ghost predicate NeverAstray<S>(m: Migrations, run: Script<S>, base: S)
    requires m.Valid()
  {
    forall i: nat :: i < |m.ups| ==> BackOrBroken(m, run, base, i)
  }

  function Version<S>(db: Database<S>): Option<uint64> {
    StoredVersion(EnsureVersions(db).versions.value, ScanCell)
  }

  /** The recorded version is in range, and the schema is the one it stands for. */
  ghost predicate Consistent<S>(m: Migrations, run: Script<S>, base: S, db: Database<S>)
    requires m.Valid()
  {
    && Version(db).Some?
    && Version(db).value <= |m.ups|
    && Reached(m, run, base, Version(db).value) == Ok(db.schema)
  }

  /** Skipping the first d scripts of a plan is starting from the version they lead to. */
  lemma {:induction false} SkipUps<S>(m: Migrations, run: Script<S>, ok: Stmt -> bool, a: nat, b: nat, c: nat, k: nat, schema: S)
    requires m.Valid() && a <= b <= c <= |m.ups| && k <= c - b
    ensures RunFrom(m, run, ok, a, c, b - a + k, schema) == RunFrom(m, run, ok, b, c, k, schema)
    decreases c - b - k
  {
    if k < c - b && run(m.ups[b + k], schema).Done? {
      SkipUps(m, run, ok, a, b, c, k + 1, run(m.ups[b + k], schema).schema);
    }
  }

  lemma {:induction false} SkipDowns<S>(m: Migrations, run: Script<S>, ok: Stmt -> bool, a: nat, b: nat, c: nat, k: nat, schema: S)
    requires m.Valid() && c <= b <= a <= |m.ups| && k <= b - c
    ensures RunFrom(m, run, ok, a, c, a - b + k, schema) == RunFrom(m, run, ok, b, c, k, schema)
    decreases b - c - k
  {
    if k < b - c && run(m.downs[b - 1 - k], schema).Done? {
      SkipDowns(m, run, ok, a, b, c, k + 1, run(m.downs[b - 1 - k], schema).schema);
    }
  }

  /** Going up from a to c passes through every b between them. */
  lemma {:induction false} UpsCompose<S>(m: Migrations, run: Script<S>, ok: Stmt -> bool, a: nat, b: nat, c: nat, k: nat, schema: S)
    requires m.Valid() && a <= b <= c <= |m.ups| && k <= b - a
    ensures RunFrom(m, run, ok, a, c, k, schema) ==
            match RunFrom(m, run, ok, a, b, k, schema)
            case Err(i) => Err(i)
            case Ok(mid) => RunFrom(m, run, ok, b, c, 0, mid)
    decreases b - a - k
  {
    if k == b - a {
      SkipUps(m, run, ok, a, b, c, 0, schema);
    } else if run(m.ups[a + k], schema).Done? {
      UpsCompose(m, run, ok, a, b, c, k + 1, run(m.ups[a + k], schema).schema);
    }
  }

  /** Going down from a to c passes through every b between them. */
  lemma {:induction false} DownsCompose<S>(m: Migrations, run: Script<S>, ok: Stmt -> bool, a: nat, b: nat, c: nat, k: nat, schema: S)
    requires m.Valid() && c <= b <= a <= |m.ups| && k <= a - b
    ensures RunFrom(m, run, ok, a, c, k, schema) ==
            match RunFrom(m, run, ok, a, b, k, schema)
            case Err(i) => Err(i)
            case Ok(mid) => RunFrom(m, run, ok, b, c, 0, mid)
    decreases a - b - k
  {
    if k == a - b {
      SkipDowns(m, run, ok, a, b, c, 0, schema);
    } else if run(m.downs[a - 1 - k], schema).Done? {
      DownsCompose(m, run, ok, a, b, c, k + 1, run(m.downs[a - 1 - k], schema).schema);
    }
  }

  /** What is reached at a version passed through what is reached at the version before it. */
  lemma LastUp<S>(m: Migrations, run: Script<S>, base: S, version: nat)
    requires m.Valid() && 0 < version <= |m.ups| && Reached(m, run, base, version).Ok?
    ensures Reached(m, run, base, version - 1).Ok?
    ensures run(m.ups[version - 1], Reached(m, run, base, version - 1).value) == Done(Reached(m, run, base, version).value)
  {
    UpsCompose(m, run, NoFaults, 0, version - 1, version, 0, base);
    var previous := Reached(m, run, base, version - 1).value;
    assert RunFrom(m, run, NoFaults, version - 1, version, 1, run(m.ups[version - 1], previous).schema)
        == Ok(run(m.ups[version - 1], previous).schema);
  }

  /** One down script is a plan of its own. */
  lemma FirstDown<S>(m: Migrations, run: Script<S>, ok: Stmt -> bool, version: nat, target: nat, schema: S)
    requires m.Valid() && target < version <= |m.ups| && ok(RunScript(version - 1))
    ensures RunFrom(m, run, ok, version, target, 0, schema) ==
            match run(m.downs[version - 1], schema)
            case Done(next) => RunFrom(m, run, ok, version - 1, target, 0, next)
            case Broken(_) => Err(version - 1)
  {
    match run(m.downs[version - 1], schema)
    case Done(next) => SkipDowns(m, run, ok, version, version - 1, target, 0, next);
    case Broken(_) =>
  }

  /** Down scripts that complete lead from a reached version to a reached version. */
  lemma {:induction false} DownsStayOnPath<S>(m: Migrations, run: Script<S>, base: S, version: nat, target: nat, schema: S)
    requires m.Valid() && NeverAstray(m, run, base) && target <= version <= |m.ups|
    requires Reached(m, run, base, version) == Ok(schema)
    ensures Reached(m, run, base, target).Ok?
    ensures var r := RunFrom(m, run, NoFaults, version, target, 0, schema);
            r.Ok? ==> r == Reached(m, run, base, target)
    decreases version
  {
    if target < version {
      LastUp(m, run, base, version);
      FirstDown(m, run, NoFaults, version, target, schema);
      assert BackOrBroken(m, run, base, version - 1);
      DownsStayOnPath(m, run, base, version - 1, target, Reached(m, run, base, version - 1).value);
    }
  }

  /** From a reached version the down scripts always complete, and lead to the lower one. */
  lemma {:induction false} DownsRetrace<S>(m: Migrations, run: Script<S>, base: S, version: nat, target: nat, schema: S)
    requires m.Valid() && Undoes(m, run, base) && target <= version <= |m.ups|
    requires Reached(m, run, base, version) == Ok(schema)
    ensures Reached(m, run, base, target).Ok?
    ensures RunFrom(m, run, NoFaults, version, target, 0, schema) == Reached(m, run, base, target)
    decreases version
  {
    if target < version {
      LastUp(m, run, base, version);
      FirstDown(m, run, NoFaults, version, target, schema);
      DownsRetrace(m, run, base, version - 1, target, Reached(m, run, base, version - 1).value);
    }
  }

  /** A plan that completes in spite of possible faults is the plan without faults. */
  lemma {:induction false} FaultsOnlyStop<S>(m: Migrations, run: Script<S>, ok: Stmt -> bool, a: nat, c: nat, k: nat, schema: S)
    requires m.Valid() && a <= |m.ups| && c <= |m.ups| && k <= Distance(a, c)
    ensures RunFrom(m, run, ok, a, c, k, schema).Ok? ==>
              RunFrom(m, run, ok, a, c, k, schema) == RunFrom(m, run, NoFaults, a, c, k, schema)
    ensures (forall i: nat :: ok(RunScript(i))) ==>
              RunFrom(m, run, ok, a, c, k, schema) == RunFrom(m, run, NoFaults, a, c, k, schema)
    decreases Distance(a, c) - k
  {
    if k < Distance(a, c) {
      var job := PlanJob(m, a, c, k);
      if run(job.text, schema).Done? {
        FaultsOnlyStop(m, run, ok, a, c, k + 1, run(job.text, schema).schema);
      }
    }
  }

  /** Between any two versions, up or down, scripts that complete lead to the schema of the target. */
  lemma PlanReaches<S>(m: Migrations, run: Script<S>, base: S, version: nat, target: nat, schema: S)
    requires m.Valid() && NeverAstray(m, run, base) && version <= |m.ups| && target <= |m.ups|
    requires Reached(m, run, base, version) == Ok(schema)
    ensures var r := RunFrom(m, run, NoFaults, version, target, 0, schema);
            && (r.Ok? ==> r == Reached(m, run, base, target))
            && (version <= target || Undoes(m, run, base) ==> r.Ok? == Reached(m, run, base, target).Ok?)
  {
    if target < version {
      DownsStayOnPath(m, run, base, version, target, schema);
      if Undoes(m, run, base) {
        DownsRetrace(m, run, base, version, target, schema);
      }
    } else {
      UpsCompose(m, run, NoFaults, 0, version, target, 0, base);
    }
  }

  /**
   One call on a consistent database: if it succeeds, the schema is the one the target
   stands for and the target is recorded. If moreover no down script breaks off and no
   statement fails by accident, it succeeds exactly when the target exists and its up
   scripts complete on the initial schema, from whatever version the call starts.
   */
  lemma MigrateReachesTarget<S>(m: Migrations, run: Script<S>, ok: Stmt -> bool, kind: Kind, base: S,
                                target: uint64, db: Database<S>)
    requires m.Valid() && NeverAstray(m, run, base) && Consistent(m, run, base, db)
    ensures var r := Migrated(m, run, ok, Reader(kind), target, db);
            && (r.Ok? ==> && target <= |m.ups|
                          && Reached(m, run, base, target) == Ok(r.value.schema)
                          && Version(r.value) == Some(target)
                          && Consistent(m, run, base, r.value))
            && ((Undoes(m, run, base) || Version(db).value <= target) && (forall stmt :: ok(stmt)) ==>
                  (r.Ok? <==> target <= |m.ups| && Reached(m, run, base, target).Ok?))
  {
    var version := Version(db).value;
    assert StoredVersion(EnsureVersions(db).versions.value, Reader(kind)) == Some(version);
    if target <= |m.ups| && version != target {
      FaultsOnlyStop(m, run, ok, version, target, 0, db.schema);
      PlanReaches(m, run, base, version, target, db.schema);
    }
  }

  /** One call of a run, with what happens to its statements. */
  datatype Call = Call(kind: Kind, target: uint64, ok: Stmt -> bool)

  function AfterCall<S>(m: Migrations, run: Script<S>, call: Call, db: Database<S>): Database<S>
    requires m.Valid()
  {
    var r := Migrated(m, run, call.ok, Reader(call.kind), call.target, db);
    if r.Ok? then r.value else db
  }

  function After<S>(m: Migrations, run: Script<S>, calls: seq<Call>, db: Database<S>): Database<S>
    requires m.Valid()
  {
    if calls == [] then db else After(m, run, calls[1..], AfterCall(m, run, calls[0], db))
  }

  /**
   After any calls of either package, some failing at any statement, the schema is the
   initial one with exactly the first v up scripts applied, v being the recorded version.
   */
  lemma {:induction false} RunsStayConsistent<S>(m: Migrations, run: Script<S>, base: S, calls: seq<Call>, db: Database<S>)
    requires m.Valid() && NeverAstray(m, run, base) && Consistent(m, run, base, db)
    ensures Consistent(m, run, base, After(m, run, calls, db))
  {
    if calls != [] {
      MigrateReachesTarget(m, run, calls[0].ok, calls[0].kind, base, calls[0].target, db);
      RunsStayConsistent(m, run, base, calls[1..], AfterCall(m, run, calls[0], db));
    }
  }

  lemma TwoCalls<S>(m: Migrations, run: Script<S>, a: Call, b: Call, db: Database<S>)
    requires m.Valid()
    ensures After(m, run, [a, b], db) == AfterCall(m, run, b, AfterCall(m, run, a, db))
  {
    var mid := AfterCall(m, run, a, db);
    var calls := [a, b];
    assert calls[1..] == [b] && [b][1..] == [];
    assert After(m, run, [], AfterCall(m, run, b, mid)) == AfterCall(m, run, b, mid);
    assert After(m, run, [b], mid) == AfterCall(m, run, b, mid);
    assert After(m, run, calls, db) == After(m, run, calls[1..], mid);
  }

  /** Up to i + 1, and one step back. */
  function ThereAndBack(i: nat): seq<Call>
    requires i + 1 < TWO64
  {
    [Call(Transaction, i + 1, NoFaults), Call(Transaction, i, NoFaults)]
  }

  /** Such a run leaves behind what the down script makes of the schema above it. */
  lemma ThereAndBackSchema<S>(m: Migrations, run: Script<S>, db: Database<S>, i: nat)
    requires m.Valid() && Version(db) == Some(0) && i < |m.ups| && Reached(m, run, db.schema, i + 1).Ok?
    requires run(m.downs[i], Reached(m, run, db.schema, i + 1).value).Done?
    ensures var end := After(m, run, ThereAndBack(i), db);
            && Version(end) == Some(i)
            && Done(end.schema) == run(m.downs[i], Reached(m, run, db.schema, i + 1).value)
  {
    var top := Reached(m, run, db.schema, i + 1).value;
    var up, back := Call(Transaction, i + 1, NoFaults), Call(Transaction, i, NoFaults);
    TwoCalls(m, run, up, back, db);
    var mid := AfterCall(m, run, up, db);
    assert mid == Database(top, Some([Integer(i + 1)]));
    FirstDown(m, run, NoFaults, i + 1, i, top);
  }

  /** Some calls on this database leave the schema that the recorded version stands for. */
  ghost predicate ConsistentAfter<S>(m: Migrations, run: Script<S>, db: Database<S>, calls: seq<Call>)
    requires m.Valid()
  {
    Consistent(m, run, db.schema, After(m, run, calls, db))
  }

  lemma AstrayShows<S>(m: Migrations, run: Script<S>, db: Database<S>, i: nat)
    requires m.Valid() && Version(db) == Some(0) && i < |m.ups|
    requires ConsistentAfter(m, run, db, ThereAndBack(i))
    ensures BackOrBroken(m, run, db.schema, i)
  {
    var top := Reached(m, run, db.schema, i + 1);
    if top.Ok? && run(m.downs[i], top.value).Done? {
      ThereAndBackSchema(m, run, db, i);
    }
  }

  /**
   The exact condition, on a database that starts at version 0: whatever calls are made and
   whatever fails, the schema is always the one its version stands for, if and only if no
   down script, run where the up scripts lead, completes anywhere but one step back.
   */
  lemma ConsistentForeverIff<S>(m: Migrations, run: Script<S>, db: Database<S>)
    requires m.Valid() && Version(db) == Some(0)
    ensures (forall calls :: ConsistentAfter(m, run, db, calls)) <==> NeverAstray(m, run, db.schema)
  {
    if NeverAstray(m, run, db.schema) {
      forall calls
        ensures ConsistentAfter(m, run, db, calls)
      {
        RunsStayConsistent(m, run, db.schema, calls, db);
      }
    }
    if forall calls :: ConsistentAfter(m, run, db, calls) {
      forall i: nat | i < |m.ups|
        ensures BackOrBroken(m, run, db.schema, i)
      {
        AstrayShows(m, run, db, i);
      }
    }
  }

  /** A down that adds instead of removing: one way up and back ends at version 0 in another schema. */
  lemma AstrayDownIsNoticed()
    ensures var m := Migrations(["up"], ["down"]);
            m.Valid() && After(m, AddOne, ThereAndBack(0), Database(0, None)) == Database(2, Some([Integer(0)]))
  {
    var m := Migrations(["up"], ["down"]);
    assert RunFrom(m, AddOne, NoFaults, 0, 1, 1, 1) == Ok(1);
    ThereAndBackSchema(m, AddOne, Database(0, None), 0);
    TwoCalls(m, AddOne, ThereAndBack(0)[0], ThereAndBack(0)[1], Database(0, None));
  }

  /** Two runs that end at one version end in one schema. */
  lemma SchemaDependsOnVersionOnly<S>(m: Migrations, run: Script<S>, base: S, db: Database<S>,
                                      calls: seq<Call>, others: seq<Call>)
    requires m.Valid() && NeverAstray(m, run, base) && Consistent(m, run, base, db)
    requires Version(After(m, run, calls, db)) == Version(After(m, run, others, db))
    ensures After(m, run, calls, db).schema == After(m, run, others, db).schema
  {
    RunsStayConsistent(m, run, base, calls, db);
    RunsStayConsistent(m, run, base, others, db);
  }

  /** A successful call has completed the whole plan. */
  lemma SuccessCompletes<S>(m: Migrations, run: Script<S>, call: Call, base: S, db: Database<S>)
    requires m.Valid() && Consistent(m, run, base, db)
    requires Migrated(m, run, call.ok, Reader(call.kind), call.target, db).Ok?
    ensures call.target <= |m.ups|
    ensures RunFrom(m, run, NoFaults, Version(db).value, call.target, 0, db.schema)
            == Ok(AfterCall(m, run, call, db).schema)
  {
    var version := Version(db).value;
    assert StoredVersion(EnsureVersions(db).versions.value, Reader(call.kind)) == Some(version);
    FaultsOnlyStop(m, run, call.ok, version, call.target, 0, db.schema);
  }

  /** A way from a over b to c that completes contains a direct way from a to c that does. */
  lemma DirectWayCompletes<S>(m: Migrations, run: Script<S>, base: S, a: nat, b: nat, c: nat, schema: S, mid: S)
    requires m.Valid() && NeverAstray(m, run, base) && a <= |m.ups| && b <= |m.ups| && c <= |m.ups|
    requires Reached(m, run, base, a) == Ok(schema) && Reached(m, run, base, b) == Ok(mid)
    requires RunFrom(m, run, NoFaults, a, b, 0, schema) == Ok(mid)
    requires RunFrom(m, run, NoFaults, b, c, 0, mid).Ok?
    ensures RunFrom(m, run, NoFaults, a, c, 0, schema).Ok?
  {
    PlanReaches(m, run, base, b, c, mid);
    if a <= c {
      PlanReaches(m, run, base, a, c, schema);
    } else if b <= c {
      DownsCompose(m, run, NoFaults, a, c, b, 0, schema);
    } else if b <= a {
      DownsCompose(m, run, NoFaults, a, b, c, 0, schema);
    } else {
      DownsCompose(m, run, NoFaults, b, a, c, 0, mid);
      DownsStayOnPath(m, run, base, b, a, mid);
    }
  }

  /** If a detour over b reaches c, so does the direct call, in the same schema and version. */
  lemma PathIndependence<S>(m: Migrations, run: Script<S>, base: S, db: Database<S>, via: Call, last: Call, direct: Kind)
    requires m.Valid() && NeverAstray(m, run, base) && Consistent(m, run, base, db)
    requires Migrated(m, run, via.ok, Reader(via.kind), via.target, db).Ok?
    requires Migrated(m, run, last.ok, Reader(last.kind), last.target, AfterCall(m, run, via, db)).Ok?
    ensures var end := After(m, run, [via, last], db);
            var r := Migrated(m, run, NoFaults, Reader(direct), last.target, db);
            r.Ok? && r.value.schema == end.schema && Version(r.value) == Version(end) == Some(last.target)
  {
    var mid := AfterCall(m, run, via, db);
    MigrateReachesTarget(m, run, via.ok, via.kind, base, via.target, db);
    MigrateReachesTarget(m, run, last.ok, last.kind, base, last.target, mid);
    SuccessCompletes(m, run, via, base, db);
    SuccessCompletes(m, run, last, base, mid);
    DirectWayCompletes(m, run, base, Version(db).value, via.target, last.target, db.schema, mid.schema);
    CompletedPlanSucceeds(m, run, direct, base, last.target, db);
    MigrateReachesTarget(m, run, NoFaults, direct, base, last.target, db);
    TwoCalls(m, run, via, last, db);
  }

  lemma CompletedPlanSucceeds<S>(m: Migrations, run: Script<S>, kind: Kind, base: S, target: uint64, db: Database<S>)
    requires m.Valid() && Consistent(m, run, base, db) && target <= |m.ups|
    requires RunFrom(m, run, NoFaults, Version(db).value, target, 0, db.schema).Ok?
    ensures Migrated(m, run, NoFaults, Reader(kind), target, db).Ok?
  {
    assert StoredVersion(EnsureVersions(db).versions.value, Reader(kind)) == Version(db);
  }

  /** `Up` and then `Down`: the way back always exists and restores the initial schema. */
  lemma UpThenDownRestores<S>(m: Migrations, run: Script<S>, ok: Stmt -> bool, up: Kind, down: Kind, db: Database<S>)
    requires m.Valid() && Undoes(m, run, db.schema) && Version(db) == Some(0)
    requires Migrated(m, run, ok, Reader(up), |m.ups|, db).Ok?
    ensures var top := Migrated(m, run, ok, Reader(up), |m.ups|, db).value;
            var r := Migrated(m, run, NoFaults, Reader(down), 0, top);
            r.Ok? && r.value.schema == db.schema && Version(r.value) == Some(0)
  {
    var top := Migrated(m, run, ok, Reader(up), |m.ups|, db).value;
    MigrateReachesTarget(m, run, ok, up, db.schema, |m.ups|, db);
    MigrateReachesTarget(m, run, NoFaults, down, db.schema, 0, top);
  }
}
