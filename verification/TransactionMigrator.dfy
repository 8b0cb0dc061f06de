/** `Migrate` over an explicit `database/sql` transaction. */
module TransactionMigrator {
  import opened Common
  import opened MigrationSpec

  /** A failed statement may leave anything at all in the transaction. */
  datatype Outcome<+S> = Fine | Fails(debris: Database<S>)

  /** Everything a call cannot foresee: scripts, statement outcomes, a failing rollback. */
  datatype Env<!S> = Env(run: Script<S>, outcome: Stmt -> Outcome<S>, rollbackFails: bool) {
    function Succeeds(stmt: Stmt): bool {
      outcome(stmt).Fine?
    }
  }

  datatype MigrateError = MigrateError(reason: Reason, rollbackFailed: bool)

  /**
   A database handle with at most one open transaction. `Commit` and `Rollback` end the
   transaction whether or not they report an error, as `sql.Tx` does, and a failed one
   leaves the committed database as it was.
   */
  class Handle<S> {
    var committed: Database<S>
    var working: Database<S>
    var open: bool
    /** Every script started so far, in order. */
    ghost var started: seq<Job>

    constructor (db: Database<S>)
      ensures committed == db && !open && started == []
    {
      committed, working, open, started := db, db, false, [];
    }

    method BeginTx(outcome: Outcome<S>) returns (ok: bool)
      requires !open
      modifies this`working, this`open
      ensures ok == outcome.Fine? == open
      ensures open ==> working == committed
    {
      ok := outcome.Fine?;
      if ok { working, open := committed, true; }
    }

    method CommitTx(outcome: Outcome<S>) returns (ok: bool)
      requires open
      modifies this`committed, this`open
      ensures !open && ok == outcome.Fine?
      ensures committed == if ok then working else old(committed)
    {
      ok := outcome.Fine?;
      if ok { committed := working; }
      open := false;
    }

    /** Rolls back on an error path and wraps both errors. */
    method Abandon(reason: Reason, rollbackFails: bool) returns (error: MigrateError)
      requires open
      modifies this`open
      ensures !open && error == MigrateError(reason, rollbackFails)
    {
      open := false;
      error := MigrateError(reason, rollbackFails);
    }

    /** A statement whose success turns the working database into `next`. */
    method Exec(outcome: Outcome<S>, next: Database<S>) returns (ok: bool)
      requires open
      modifies this`working
      ensures ok == outcome.Fine?
      ensures ok ==> working == next
    {
      ok := outcome.Fine?;
      working := if ok then next else outcome.debris;
    }

    method ExecScript(env: Env<S>, job: Job) returns (ok: bool)
      requires open
      modifies this`working, this`started
      ensures started == old(started) + [job]
      ensures ok == (env.Succeeds(RunScript(job.index)) && env.run(job.text, old(working.schema)).Done?)
      ensures ok ==> working == old(working).(schema := env.run(job.text, old(working.schema)).schema)
    {
      started := started + [job];
      var effect := env.run(job.text, working.schema);
      var after := if effect.Done? then effect.schema else effect.leftover;
      ok := Exec(env.outcome(RunScript(job.index)), working.(schema := after));
      ok := ok && effect.Done?;
    }

    /**
     Reads back what `SetDbVersion` writes, and 0 before anything was written. A failing
     query, a missing table, NULL and negative values are errors, and nothing else is.
     */
    method DbVersion(env: Env<S>) returns (version: Option<uint64>)
      requires open
      ensures version.None? <==>
              || !env.Succeeds(SelectVersion)
              || working.versions.None?
              || (working.versions.value != [] && working.versions.value[0].Null?)
              || (working.versions.value != [] && working.versions.value[0].value < 0)
      ensures version.Some? && working.versions.value == [] ==> version.value == 0
      ensures version.Some? && working.versions.value != [] ==> working.versions.value[0].value == version.value
    {
      if !env.Succeeds(SelectVersion) || working.versions.None? {
        return None;
      }
      var rows := working.versions.value;
      version := if rows == [] then Some(0) else ScanCell(rows[0]);
    }

    /** `database/sql` refuses to bind a uint64 with its high bit set. */
    method SetDbVersion(env: Env<S>, version: uint64) returns (failed: Option<Stmt>)
      requires open
      modifies this`working
      ensures failed == if !env.Succeeds(DeleteRows) then Some(DeleteRows)
                        else if !env.Succeeds(InsertRow) || TWO63 <= version then Some(InsertRow) else None
      ensures failed.None? ==> working == old(working).(versions := Some([Integer(version)]))
    {
      var ok := Exec(env.outcome(DeleteRows), working.(versions := Some([])));
      if !ok {
        return Some(DeleteRows);
      }
      if TWO63 <= version {
        return Some(InsertRow);
      }
      ok := Exec(env.outcome(InsertRow), working.(versions := Some([Integer(version)])));
      failed := if ok then None else Some(InsertRow);
    }

    /** The next script of the plan. */
    method RunPlanned(m: Migrations, env: Env<S>, job: Job, ghost version: nat, ghost target: nat, ghost k: nat,
                      ghost from: S, ghost done: seq<Job>) returns (ok: bool)
      requires open && m.Valid() && version <= |m.ups| && target <= |m.ups|
      requires k < Distance(version, target) && job == PlanJob(m, version, target, k)
      requires Underway(m, env.run, env.Succeeds, version, target, from, k, working.schema, done)
      modifies this`working, this`started
      ensures started == old(started) + [job]
      ensures ok ==> working == old(working).(schema := working.schema)
      ensures ok ==> Underway(m, env.run, env.Succeeds, version, target, from, k + 1, working.schema, done + [job])
      ensures !ok ==> RunFrom(m, env.run, env.Succeeds, version, target, 0, from) == Err(job.index)
      ensures !ok ==> Attempted(m, version, target, Some(RunScript(job.index))) == done + [job]
    {
      ghost var before := working.schema;
      ok := ExecScript(env, job);
      if ok {
        ScriptCompletes(m, env.run, env.Succeeds, version, target, from, k, before, done);
      } else {
        ScriptFails(m, env.run, env.Succeeds, version, target, from, k, before, done);
      }
    }

    /** The descending loop over a signed index, which ends at -1 when the target is 0. */
    method RunDowns(m: Migrations, env: Env<S>, version: uint64, target: uint64) returns (failed: Option<nat>)
      requires m.Valid() && target < version <= |m.ups| && open
      modifies this`working, this`started
      ensures RunFrom(m, env.run, env.Succeeds, version, target, 0, old(working.schema))
              == if failed.Some? then Err(failed.value) else Ok(working.schema)
      ensures failed.None? ==> working == old(working).(schema := working.schema)
      ensures started == old(started) +
                         Attempted(m, version, target, if failed.Some? then Some(RunScript(failed.value)) else None)
    {
      ghost var done: seq<Job> := [];
      var i, last := ToSigned(version - 1), ToSigned(target);
      while i >= last
        invariant target - 1 <= i < version
        invariant working == old(working).(schema := working.schema)
        invariant started == old(started) + done
        invariant Underway(m, env.run, env.Succeeds, version, target, old(working.schema), version - 1 - i, working.schema, done)
        decreases i + 1
      {
        var ok := RunPlanned(m, env, Job(i, m.downs[i]), version, target, version - 1 - i, old(working.schema), done);
        done := done + [Job(i, m.downs[i])];
        if !ok {
          return Some(i);
        }
        i := i - 1;
      }
      failed := None;
    }

    method RunUps(m: Migrations, env: Env<S>, version: uint64, target: uint64) returns (failed: Option<nat>)
      requires m.Valid() && version <= target <= |m.ups| && open
      modifies this`working, this`started
      ensures RunFrom(m, env.run, env.Succeeds, version, target, 0, old(working.schema))
              == if failed.Some? then Err(failed.value) else Ok(working.schema)
      ensures failed.None? ==> working == old(working).(schema := working.schema)
      ensures started == old(started) +
                         Attempted(m, version, target, if failed.Some? then Some(RunScript(failed.value)) else None)
    {
      ghost var done: seq<Job> := [];
      for i := version to target
        invariant working == old(working).(schema := working.schema)
        invariant started == old(started) + done
        invariant Underway(m, env.run, env.Succeeds, version, target, old(working.schema), i - version, working.schema, done)
      {
        var ok := RunPlanned(m, env, Job(i, m.ups[i]), version, target, i - version, old(working.schema), done);
        done := done + [Job(i, m.ups[i])];
        if !ok {
          return Some(i);
        }
      }
      failed := None;
    }

    /** The scripts and the new version row; the first statement that fails, if any. */
    method Rewrite(m: Migrations, env: Env<S>, version: uint64, target: uint64) returns (failed: Option<Stmt>)
      requires m.Valid() && version <= |m.ups| && target <= |m.ups| && open
      modifies this`working, this`started
      ensures var result := RunFrom(m, env.run, env.Succeeds, version, target, 0, old(working.schema));
              && failed == (if result.Err? then Some(RunScript(result.error))
                            else if !env.Succeeds(DeleteRows) then Some(DeleteRows)
                            else if !env.Succeeds(InsertRow) then Some(InsertRow) else None)
              && (failed.None? ==> working == Database(result.value, Some([Integer(target)])))
      ensures started == old(started) + Attempted(m, version, target, failed)
    {
      var index: Option<nat>;
      if target < version {
        index := RunDowns(m, env, version, target);
      } else {
        index := RunUps(m, env, version, target);
      }
      if index.Some? {
        return Some(RunScript(index.value));
      }
      failed := SetDbVersion(env, target);
    }

    /** The version table is created if it is missing, and the version is read from it. */
    method EnsuredVersion(env: Env<S>) returns (r: Result<uint64, Stmt>)
      requires open
      modifies this`working
      ensures var stored := StoredVersion(EnsureVersions(old(working)).versions.value, ScanCell);
              && (r.Ok? <==> env.Succeeds(VersionSchema) && env.Succeeds(SelectVersion) && stored.Some?)
              && (r.Ok? ==> r.value == stored.value && working == EnsureVersions(old(working)))
              && (r.Err? ==> r.error == if !env.Succeeds(VersionSchema) then VersionSchema else SelectVersion)
    {
      var ok := Exec(env.outcome(VersionSchema), EnsureVersions(working));
      if !ok {
        return Err(VersionSchema);
      }
      var version := DbVersion(env);
      r := if version.Some? then Ok(version.value) else Err(SelectVersion);
    }

    /** The end of a call that has to run scripts. */
    method RewriteAndCommit(m: Migrations, env: Env<S>, version: uint64, target: uint64) returns (r: Result<(), MigrateError>)
      requires m.Valid() && version <= |m.ups| && target <= |m.ups| && open
      modifies this
      ensures !open
      ensures var result := RunFrom(m, env.run, env.Succeeds, version, target, 0, old(working.schema));
              var failed := if result.Err? then Some(RunScript(result.error))
                            else if !env.Succeeds(DeleteRows) then Some(DeleteRows)
                            else if !env.Succeeds(InsertRow) then Some(InsertRow) else None;
              && r == (if failed.Some? then Err(MigrateError(At(failed.value), env.rollbackFails))
                       else if !env.Succeeds(Commit) then Err(MigrateError(At(Commit), false)) else Ok(()))
              && committed == (if r.Ok? then Database(result.value, Some([Integer(target)])) else old(committed))
              && started == old(started) + Attempted(m, version, target, failed)
    {
      var failed := Rewrite(m, env, version, target);
      if failed.Some? {
        var e := Abandon(At(failed.value), env.rollbackFails);
        return Err(e);
      }
      var ok := CommitTx(env.outcome(Commit));
      r := if ok then Ok(()) else Err(MigrateError(At(Commit), false));
    }

    /**
     All or nothing: the call reports success exactly when the specification does and has
     then committed exactly its database; otherwise the committed database is untouched.
     On every path the transaction is closed. A call starts exactly the scripts between the
     stored and the target version, and none behind one that fails.
     */
    method Migrate(m: Migrations, env: Env<S>, target: uint64) returns (r: Result<(), MigrateError>)
      requires m.Valid() && !open
      modifies this
      ensures !open
      ensures var spec := Migrated(m, env.run, env.Succeeds, ScanCell, target, old(committed));
              && (r.Ok? <==> spec.Ok?)
              && (r.Ok? ==> committed == spec.value)
              && (r.Err? ==> committed == old(committed))
              && (r.Err? ==> r.error.reason == spec.error)
      ensures r.Err? ==>
                r.error.rollbackFailed ==
                (env.rollbackFails && r.error.reason !in {TargetTooHigh, At(Begin), At(Commit)})
      ensures started == old(started) +
                         StartedScripts(m, ScanCell, target, old(committed), if r.Ok? then None else Some(r.error.reason))
    {
      if |m.ups| < target {
        return Err(MigrateError(TargetTooHigh, false));
      }
      var ok := BeginTx(env.outcome(Begin));
      if !ok {
        return Err(MigrateError(At(Begin), false));
      }
      var stored := EnsuredVersion(env);
      if stored.Err? {
        var e := Abandon(At(stored.error), env.rollbackFails);
        return Err(e);
      }
      var version := stored.value;
      if version == target {
        ok := CommitTx(env.outcome(Commit));
        assert FullPlan(m, version, target) == [];
        r := if ok then Ok(()) else Err(MigrateError(At(Commit), false));
        return;
      }
      if |m.ups| < version {
        var e := Abandon(DatabaseTooHigh(version), env.rollbackFails);
        return Err(e);
      }
      r := RewriteAndCommit(m, env, version, target);
    }

    method Up(m: Migrations, env: Env<S>) returns (r: Result<(), MigrateError>)
      requires m.Valid() && !open
      modifies this
      ensures !open
      ensures var spec := Migrated(m, env.run, env.Succeeds, ScanCell, |m.ups|, old(committed));
              && (r.Ok? <==> spec.Ok?)
              && committed == (if r.Ok? then spec.value else old(committed))
              && (r.Err? ==> r.error.reason == spec.error)
      ensures r.Err? ==>
                r.error.rollbackFailed ==
                (env.rollbackFails && r.error.reason !in {TargetTooHigh, At(Begin), At(Commit)})
      ensures started == old(started) +
                         StartedScripts(m, ScanCell, |m.ups|, old(committed), if r.Ok? then None else Some(r.error.reason))
    {
      r := Migrate(m, env, |m.ups|);
    }

    method Down(m: Migrations, env: Env<S>) returns (r: Result<(), MigrateError>)
      requires m.Valid() && !open
      modifies this
      ensures !open
      ensures var spec := Migrated(m, env.run, env.Succeeds, ScanCell, 0, old(committed));
              && (r.Ok? <==> spec.Ok?)
              && committed == (if r.Ok? then spec.value else old(committed))
              && (r.Err? ==> r.error.reason == spec.error)
      ensures r.Err? ==>
                r.error.rollbackFailed ==
                (env.rollbackFails && r.error.reason !in {TargetTooHigh, At(Begin), At(Commit)})
      ensures started == old(started) +
                         StartedScripts(m, ScanCell, 0, old(committed), if r.Ok? then None else Some(r.error.reason))
    {
      r := Migrate(m, env, 0);
    }
  }
}
