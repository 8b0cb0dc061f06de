/** `Migrate` over the named savepoint stack of a single connection. */
module SavepointMigrator {
  import opened Common
  import opened MigrationSpec

  /** The functions that open a savepoint. */
  datatype Frame = MigrateFrame | EnsureFrame | ScriptFrame(stmt: Stmt)

  /** `sqlitex.Save` names a savepoint after its caller, so names repeat. */
  function Name(frame: Frame): string {
    match frame
    case MigrateFrame => "migrationx.(*Migrations).Migrate"
    case EnsureFrame => "migrationx.ensureVersionSchema"
    case ScriptFrame(_) => "sqlitex.ExecuteScript"
  }

  /** Each function uses one name, which none of the others uses. */
  lemma NamesOfFunctions(stmt: Stmt, other: Stmt)
    ensures Name(ScriptFrame(stmt)) == Name(ScriptFrame(other))
    ensures |{Name(MigrateFrame), Name(EnsureFrame), Name(ScriptFrame(stmt))}| == 3
  {
    assert |Name(MigrateFrame)| == 32 && |Name(EnsureFrame)| == 30 && |Name(ScriptFrame(stmt))| == 21;
  }

  datatype Sql = Savepoint(frame: Frame) | Release(frame: Frame) | Exec(stmt: Stmt)

  /**
   A failed statement may leave anything in the open transaction; an aborting one makes
   the engine roll the whole transaction back and return to autocommit mode.
   */
  datatype Outcome<+S> = Fine | Fails(debris: Database<S>) | Aborts

  datatype Env<!S> = Env(run: Script<S>, outcome: Sql -> Outcome<S>) {
    predicate Good(sql: Sql) {
      outcome(sql).Fine?
    }

    predicate ScriptGood(stmt: Stmt) {
      Good(Savepoint(ScriptFrame(stmt))) && Good(Exec(stmt)) && Good(Release(ScriptFrame(stmt)))
    }

    /** Which steps of the specification succeed, given what happens to each SQL statement. */
    predicate Succeeds(stmt: Stmt) {
      match stmt
      case Begin => Good(Savepoint(MigrateFrame))
      case VersionSchema => Good(Savepoint(EnsureFrame)) && ScriptGood(stmt) && Good(Release(EnsureFrame))
      case RunScript(_) => ScriptGood(stmt)
      case Commit => Good(Release(MigrateFrame))
      case _ => Good(Exec(stmt))
    }
  }

  datatype Saved<+S> = Saved(name: string, snapshot: Database<S>)

  /** The innermost savepoint called `name`, which RELEASE and ROLLBACK TO act on. */
  function Innermost<S>(saves: seq<Saved<S>>, name: string): (r: Option<nat>)
    ensures r.Some? ==> r.value < |saves| && saves[r.value].name == name
    ensures r.Some? ==> forall i :: r.value < i < |saves| ==> saves[i].name != name
    ensures r.None? ==> forall i :: 0 <= i < |saves| ==> saves[i].name != name
  {
    if saves == [] then None
    else if saves[|saves| - 1].name == name then Some(|saves| - 1)
    else Innermost(saves[..|saves| - 1], name)
  }

  class Conn<S> {
    var committed: Database<S>
    var current: Database<S>
    var saves: seq<Saved<S>>
    /** The interrupt channel is closed: every further statement fails. */
    var interrupted: bool
    /** Every script started so far, in order. */
    ghost var started: seq<Job>
    /** Every executed statement at which the engine rolled everything back, in order. */
    ghost var aborts: seq<Sql>

    /** Autocommit mode has nothing pending; otherwise the outermost savepoint saw the committed state. */
    ghost predicate Valid()
      reads this
    {
      if saves == [] then current == committed else saves[0].snapshot == committed
    }

    constructor (db: Database<S>)
      ensures Valid() && committed == db && saves == [] && !interrupted && started == [] && aborts == []
    {
      committed, current, saves, interrupted, started, aborts := db, db, [], false, [], [];
    }

    /** One statement made the engine roll everything back, and the connection is in autocommit mode. */
    twostate predicate Aborted(env: Env<S>)
      reads this
    {
      && |aborts| == |old(aborts)| + 1
      && aborts == old(aborts) + [aborts[|old(aborts)|]]
      && env.outcome(aborts[|old(aborts)|]).Aborts?
      && saves == [] && current == committed == old(committed)
    }

    /** The savepoint stack is as it was, unless a statement aborted the transaction. */
    twostate predicate StackKept(env: Env<S>)
      reads this
    {
      if aborts == old(aborts) then saves == old(saves) && committed == old(committed) else Aborted(env)
    }

    /**
     Nothing is committed, and the connection is as it was, unless a statement that was
     really executed aborted the transaction.
     */
    twostate predicate RolledBack(env: Env<S>)
      reads this
    {
      StackKept(env) && (aborts == old(aborts) ==> current == old(current))
    }

    /** The savepoint stack is as it was; leaving the outermost savepoint commits. */
    twostate predicate Applied(new next: Database<S>)
      reads this
    {
      && current == next
      && saves == old(saves)
      && aborts == old(aborts)
      && committed == if saves == [] then next else old(committed)
    }

    method Save(env: Env<S>, frame: Frame) returns (saved: bool)
      requires Valid()
      modifies this`saves, this`interrupted
      ensures Valid()
      ensures saved == (!old(interrupted) && env.Good(Savepoint(frame)))
      ensures interrupted == !saved
      ensures saves == if saved then old(saves) + [Saved(Name(frame), current)] else old(saves)
    {
      saved := !interrupted && env.Good(Savepoint(frame));
      if saved {
        saves := saves + [Saved(Name(frame), current)];
      } else {
        interrupted := true;
      }
    }

    method RollbackTo(name: string)
      requires Innermost(saves, name).Some?
      modifies this`saves, this`current
      ensures saves == old(saves)[..Innermost(old(saves), name).value + 1]
      ensures current == old(saves)[Innermost(old(saves), name).value].snapshot
    {
      var k := Innermost(saves, name).value;
      current := saves[k].snapshot;
      saves := saves[..k + 1];
    }

    method ReleaseSavepoint(name: string)
      requires Innermost(saves, name).Some?
      modifies this`saves, this`committed
      ensures saves == old(saves)[..Innermost(old(saves), name).value]
      ensures committed == if saves == [] then current else old(committed)
    {
      saves := saves[..Innermost(saves, name).value];
      if saves == [] { committed := current; }
    }

    /**
     The function returned by `Save`, deferred with the pending error. `saved` tells
     whether the savepoint was created; if it was, it is on top of the stack, unless the
     engine aborted the transaction.
     */
    method EndSave(env: Env<S>, frame: Frame, saved: bool, failed: bool, ghost below: seq<Saved<S>>, ghost before: Database<S>)
      returns (ok: bool)
      requires Valid()
      requires !saved ==> failed
      requires saved ==> saves == below + [Saved(Name(frame), before)] || (saves == [] && failed)
      modifies this`saves, this`current, this`committed, this`aborts
      ensures Valid()
      ensures ok == (saved && !failed && !interrupted && env.Good(Release(frame)))
      ensures ok ==> saves == below && current == old(current) && aborts == old(aborts)
      ensures ok ==> committed == if saves == [] then current else old(committed)
      ensures !ok ==> committed == old(committed)
      ensures !ok && (!saved || old(saves) == []) ==>
                saves == old(saves) && current == old(current) && aborts == old(aborts)
      ensures !ok && saved && old(saves) != [] ==>
                if aborts == old(aborts) then saves == below && current == before
                else !failed && Aborted(env)
    {
      if !saved {
        return false;
      }
      if saves == [] {
        return false;
      }
      assert Innermost(saves, Name(frame)) == Some(|below|);
      if !failed {
        if !interrupted && env.Good(Release(frame)) {
          ReleaseSavepoint(Name(frame));
          return true;
        }
        if !interrupted && env.outcome(Release(frame)).Aborts? {
          saves, current, aborts := [], committed, aborts + [Release(frame)];
          return false;
        }
      }
      RollbackTo(Name(frame));
      ReleaseSavepoint(Name(frame));
      ok := false;
    }

    /** One statement inside a savepoint. */
    method ExecStmt(env: Env<S>, stmt: Stmt, next: Database<S>) returns (ok: bool)
      requires Valid() && (saves != [] || interrupted)
      modifies this`saves, this`current, this`aborts
      ensures Valid() && StackKept(env)
      ensures ok == (!interrupted && env.Good(Exec(stmt)))
      ensures ok ==> current == next && aborts == old(aborts)
      ensures interrupted ==> RolledBack(env) && aborts == old(aborts)
    {
      if interrupted {
        return false;
      }
      match env.outcome(Exec(stmt))
      case Fine =>
        current := next;
        ok := true;
      case Fails(debris) =>
        current := debris;
        ok := false;
      case Aborts =>
        saves, current, aborts := [], committed, aborts + [Exec(stmt)];
        ok := false;
    }

    /** `sqlitex.ExecuteScript`: a script that fails half-way is undone by its own savepoint. */
    method ExecuteScript(env: Env<S>, stmt: Stmt, effect: Effect<S>, versions: Option<seq<Cell>>) returns (ok: bool)
      requires Valid()
      modifies this`saves, this`current, this`committed, this`interrupted, this`aborts
      ensures Valid()
      ensures ok == (!old(interrupted) && env.ScriptGood(stmt) && effect.Done?)
      ensures ok ==> Applied(Database(effect.schema, versions)) && !interrupted
      ensures !ok ==> RolledBack(env)
    {
      ghost var below, before := saves, current;
      var saved := Save(env, ScriptFrame(stmt));
      var after := if effect.Done? then effect.schema else effect.leftover;
      var done := ExecStmt(env, stmt, Database(after, versions));
      done := done && effect.Done?;
      ok := EndSave(env, ScriptFrame(stmt), saved, !done, below, before);
    }

    method EnsureVersionSchema(env: Env<S>) returns (ok: bool)
      requires Valid()
      modifies this`saves, this`current, this`committed, this`interrupted, this`aborts
      ensures Valid()
      ensures ok == (!old(interrupted) && env.Succeeds(VersionSchema))
      ensures ok ==> Applied(EnsureVersions(old(current))) && !interrupted
      ensures !ok ==> RolledBack(env)
    {
      ghost var below, before := saves, current;
      var saved := Save(env, EnsureFrame);
      var ready := EnsureVersions(current);
      var done := ExecuteScript(env, VersionSchema, Done(ready.schema), ready.versions);
      ok := EndSave(env, EnsureFrame, saved, !done, below, before);
    }

    /**
     No row and NULL are version 0; any other value is the one that `SetDbVersion` writes
     for the version read back, so that negative values are versions from 2^63 on.
     */
    method DbVersion(env: Env<S>) returns (version: Option<uint64>)
      requires Valid() && saves != [] && !interrupted
      modifies this`saves, this`current, this`aborts
      ensures Valid() && StackKept(env)
      ensures version.None? <==> !env.Succeeds(SelectVersion) || old(current.versions.None?)
      ensures version.Some? ==>
                var rows := old(current.versions.value);
                if rows == [] || rows[0].Null? then version.value == 0 else rows[0].value == ToSigned(version.value)
      ensures version.Some? ==> current == old(current) && aborts == old(aborts)
    {
      if current.versions.None? {
        return None;
      }
      var rows := current.versions.value;
      var ok := ExecStmt(env, SelectVersion, current);
      if !ok {
        return None;
      }
      version := if rows == [] then Some(0) else ColumnCell(rows[0]);
    }

    /** The version is bound as `int64(version)`. */
    method SetDbVersion(env: Env<S>, version: uint64) returns (failed: Option<Stmt>)
      requires Valid() && saves != [] && !interrupted
      modifies this`saves, this`current, this`aborts
      ensures Valid() && StackKept(env)
      ensures failed == if !env.Succeeds(DeleteRows) then Some(DeleteRows)
                        else if !env.Succeeds(InsertRow) then Some(InsertRow) else None
      ensures failed.None? ==>
                && current == old(current).(versions := Some([Integer(ToSigned(version))]))
                && aborts == old(aborts)
    {
      var ok := ExecStmt(env, DeleteRows, current.(versions := Some([])));
      if !ok {
        return Some(DeleteRows);
      }
      ok := ExecStmt(env, InsertRow, current.(versions := Some([Integer(ToSigned(version))])));
      failed := if ok then None else Some(InsertRow);
    }

    /** One migration script, in its own savepoint. */
    method RunJob(env: Env<S>, job: Job) returns (ok: bool)
      requires Valid() && saves != [] && !interrupted
      modifies this
      ensures Valid() && StackKept(env)
      ensures started == old(started) + [job]
      ensures ok == (env.Succeeds(RunScript(job.index)) && env.run(job.text, old(current.schema)).Done?)
      ensures ok ==> current == old(current).(schema := env.run(job.text, old(current.schema)).schema)
      ensures ok ==> aborts == old(aborts) && !interrupted
    {
      started := started + [job];
      ok := ExecuteScript(env, RunScript(job.index), env.run(job.text, current.schema), current.versions);
    }

    /** The next script of the plan. */
    method RunPlanned(m: Migrations, env: Env<S>, job: Job, ghost version: nat, ghost target: nat, ghost k: nat,
                      ghost from: S, ghost done: seq<Job>) returns (ok: bool)
      requires Valid() && saves != [] && !interrupted
      requires m.Valid() && version <= |m.ups| && target <= |m.ups|
      requires k < Distance(version, target) && job == PlanJob(m, version, target, k)
      requires Underway(m, env.run, env.Succeeds, version, target, from, k, current.schema, done)
      modifies this
      ensures Valid() && StackKept(env)
      ensures started == old(started) + [job]
      ensures ok ==> current == old(current).(schema := current.schema) && aborts == old(aborts) && !interrupted
      ensures ok ==> Underway(m, env.run, env.Succeeds, version, target, from, k + 1, current.schema, done + [job])
      ensures !ok ==> RunFrom(m, env.run, env.Succeeds, version, target, 0, from) == Err(job.index)
      ensures !ok ==> Attempted(m, version, target, Some(RunScript(job.index))) == done + [job]
    {
      ghost var before := current.schema;
      ok := RunJob(env, job);
      if ok {
        ScriptCompletes(m, env.run, env.Succeeds, version, target, from, k, before, done);
      } else {
        ScriptFails(m, env.run, env.Succeeds, version, target, from, k, before, done);
      }
    }

    /** The signed, descending loop over the down scripts. */
    method RunDowns(m: Migrations, env: Env<S>, version: uint64, target: uint64) returns (failed: Option<nat>)
      requires m.Valid() && target < version <= |m.ups|
      requires Valid() && saves != [] && !interrupted
      modifies this
      ensures Valid() && StackKept(env)
      ensures RunFrom(m, env.run, env.Succeeds, version, target, 0, old(current.schema))
              == if failed.Some? then Err(failed.value) else Ok(current.schema)
      ensures failed.None? ==> current == old(current).(schema := current.schema) && aborts == old(aborts) && !interrupted
      ensures started == old(started) +
                         Attempted(m, version, target, if failed.Some? then Some(RunScript(failed.value)) else None)
    {
      ghost var done: seq<Job> := [];
      var i, last := ToSigned(version - 1), ToSigned(target);
      while i >= last
        invariant target - 1 <= i < version
        invariant Valid() && committed == old(committed) && saves == old(saves) && aborts == old(aborts) && !interrupted
        invariant current == old(current).(schema := current.schema)
        invariant started == old(started) + done
        invariant Underway(m, env.run, env.Succeeds, version, target, old(current.schema), version - 1 - i, current.schema, done)
        decreases i + 1
      {
        var ok := RunPlanned(m, env, Job(i, m.downs[i]), version, target, version - 1 - i, old(current.schema), done);
        done := done + [Job(i, m.downs[i])];
        if !ok {
          return Some(i);
        }
        i := i - 1;
      }
      failed := None;
    }

    method RunUps(m: Migrations, env: Env<S>, version: uint64, target: uint64) returns (failed: Option<nat>)
      requires m.Valid() && version <= target <= |m.ups|
      requires Valid() && saves != [] && !interrupted
      modifies this
      ensures Valid() && StackKept(env)
      ensures RunFrom(m, env.run, env.Succeeds, version, target, 0, old(current.schema))
              == if failed.Some? then Err(failed.value) else Ok(current.schema)
      ensures failed.None? ==> current == old(current).(schema := current.schema) && aborts == old(aborts) && !interrupted
      ensures started == old(started) +
                         Attempted(m, version, target, if failed.Some? then Some(RunScript(failed.value)) else None)
    {
      ghost var done: seq<Job> := [];
      for i := version to target
        invariant Valid() && committed == old(committed) && saves == old(saves) && aborts == old(aborts) && !interrupted
        invariant current == old(current).(schema := current.schema)
        invariant started == old(started) + done
        invariant Underway(m, env.run, env.Succeeds, version, target, old(current.schema), i - version, current.schema, done)
      {
        var ok := RunPlanned(m, env, Job(i, m.ups[i]), version, target, i - version, old(current.schema), done);
        done := done + [Job(i, m.ups[i])];
        if !ok {
          return Some(i);
        }
      }
      failed := None;
    }

    /** Scripts, then the version row; the first statement that fails, if any. */
    method Rewrite(m: Migrations, env: Env<S>, version: uint64, target: uint64) returns (failed: Option<Stmt>)
      requires m.Valid() && version <= |m.ups| && target <= |m.ups|
      requires Valid() && saves != [] && !interrupted
      modifies this
      ensures Valid() && StackKept(env)
      ensures var result := RunFrom(m, env.run, env.Succeeds, version, target, 0, old(current.schema));
              && failed == (if result.Err? then Some(RunScript(result.error))
                            else if !env.Succeeds(DeleteRows) then Some(DeleteRows)
                            else if !env.Succeeds(InsertRow) then Some(InsertRow) else None)
              && (failed.None? ==> current == Database(result.value, Some([Integer(target)])))
      ensures failed.None? ==> aborts == old(aborts) && !interrupted
      ensures started == old(started) + Attempted(m, version, target, failed)
    {
      var index: Option<nat>;
      if target < version {
        index := RunDowns(m, env, version, target);
      } else {
        index := RunUps(m, env, version, target);
      }
      if index.Some? {
        return Some(RunScript(index.value));
      }
      failed := SetDbVersion(env, target);
    }

    /** Everything between `Save` and the deferred release, whose success is not decided here. */
    method MigrateBody(m: Migrations, env: Env<S>, target: uint64) returns (r: Result<(), Reason>)
      requires m.Valid() && Valid() && (saves != [] || interrupted)
      modifies this
      ensures Valid() && StackKept(env)
      ensures |m.ups| < target ==> r == Err(TargetTooHigh)
      ensures target <= |m.ups| ==>
                var spec := Prepared(m, env.run, env.Succeeds, ColumnCell, target, old(current));
                && (r.Ok? <==> !old(interrupted) && spec.Ok?)
                && (r.Ok? ==> current == spec.value && aborts == old(aborts) && !interrupted)
                && (r.Err? ==> r.error == if old(interrupted) then At(VersionSchema) else spec.error)
      ensures started == old(started) +
                         StartedScripts(m, ColumnCell, target, old(current), if r.Ok? then None else Some(r.error))
      ensures old(interrupted) ==> RolledBack(env)
    {
      if |m.ups| < target {
        return Err(TargetTooHigh);
      }
      var ok := EnsureVersionSchema(env);
      if !ok {
        return Err(At(VersionSchema));
      }
      var stored := DbVersion(env);
      if stored.None? {
        return Err(At(SelectVersion));
      }
      var version := stored.value;
      if version == target {
        assert FullPlan(m, version, target) == [];
        return Ok(());
      }
      if |m.ups| < version {
        return Err(DatabaseTooHigh(version));
      }
      var failed := Rewrite(m, env, version, target);
      r := if failed.Some? then Err(At(failed.value)) else Ok(());
    }

    /**
     Why a call fails. A savepoint that cannot be opened goes unnoticed until the first
     statement behind it, unless the target is refused before that.
     */
    ghost function Refusal(m: Migrations, env: Env<S>, target: uint64): (reason: Option<Reason>)
      reads this
    {
      if !interrupted && env.Succeeds(Begin) then None
      else if |m.ups| < target then Some(TargetTooHigh)
      else Some(At(VersionSchema))
    }

    /**
     All or nothing over savepoints, for every entry stack, also one that already holds
     savepoints of the same names: success is exactly the specification's success, leaves
     the stack as it was, and commits if the stack was empty; on failure nothing is
     committed, and stack and pending database are as before, unless an executed statement
     aborted the whole transaction, which leaves the connection in autocommit mode. The
     error is that of the first failing step.
     */
    method Migrate(m: Migrations, env: Env<S>, target: uint64) returns (r: Result<(), Reason>)
      requires m.Valid() && Valid()
      modifies this
      ensures Valid()
      ensures var spec := Migrated(m, env.run, env.Succeeds, ColumnCell, target, old(current));
              && (r.Ok? <==> !old(interrupted) && spec.Ok?)
              && (r.Ok? ==> Applied(spec.value))
              && (r.Err? ==> r.error == if old(Refusal(m, env, target)).Some? then old(Refusal(m, env, target)).value else spec.error)
      ensures r.Err? ==> RolledBack(env)
      ensures started == old(started) +
                         StartedScripts(m, ColumnCell, target, old(current), if r.Ok? then None else Some(r.error))
    {
      ghost var below, before := saves, current;
      var saved := Save(env, MigrateFrame);
      r := MigrateBody(m, env, target);
      var released := EndSave(env, MigrateFrame, saved, r.Err?, below, before);
      if r.Ok? && !released {
        r := Err(At(Commit));
      }
    }

    method Up(m: Migrations, env: Env<S>) returns (r: Result<(), Reason>)
      requires m.Valid() && Valid()
      modifies this
      ensures Valid()
      ensures var spec := Migrated(m, env.run, env.Succeeds, ColumnCell, |m.ups|, old(current));
              && (r.Ok? <==> !old(interrupted) && spec.Ok?)
              && (r.Ok? ==> Applied(spec.value))
              && (r.Err? ==> r.error == if old(Refusal(m, env, |m.ups|)).Some? then old(Refusal(m, env, |m.ups|)).value else spec.error)
      ensures r.Err? ==> RolledBack(env)
      ensures started == old(started) +
                         StartedScripts(m, ColumnCell, |m.ups|, old(current), if r.Ok? then None else Some(r.error))
    {
      r := Migrate(m, env, |m.ups|);
    }

    method Down(m: Migrations, env: Env<S>) returns (r: Result<(), Reason>)
      requires m.Valid() && Valid()
      modifies this
      ensures Valid()
      ensures var spec := Migrated(m, env.run, env.Succeeds, ColumnCell, 0, old(current));
              && (r.Ok? <==> !old(interrupted) && spec.Ok?)
              && (r.Ok? ==> Applied(spec.value))
              && (r.Err? ==> r.error == if old(Refusal(m, env, 0)).Some? then old(Refusal(m, env, 0)).value else spec.error)
      ensures r.Err? ==> RolledBack(env)
      ensures started == old(started) +
                         StartedScripts(m, ColumnCell, 0, old(current), if r.Ok? then None else Some(r.error))
    {
      r := Migrate(m, env, 0);
    }
  }
}
