/** The two migrators side by side on equal databases, and in turn on one database. */
module MigratorsCompared {
  import opened Common
  import opened MigrationSpec
  import opened MigrationPaths
  import T = TransactionMigrator
  import S = SavepointMigrator

  /** Only the outcomes of the statements matter, not how they are given. */
  lemma {:induction false} SameOutcomesSameRun<A>(m: Migrations, run: Script<A>, ok: Stmt -> bool, ok': Stmt -> bool,
                                                  version: nat, target: nat, k: nat, schema: A)
    requires m.Valid() && version <= |m.ups| && target <= |m.ups| && k <= Distance(version, target)
    requires forall stmt :: ok(stmt) == ok'(stmt)
    ensures RunFrom(m, run, ok, version, target, k, schema) == RunFrom(m, run, ok', version, target, k, schema)
    decreases Distance(version, target) - k
  {
    if k < Distance(version, target) {
      var effect := run(PlanJob(m, version, target, k).text, schema);
      if effect.Done? {
        SameOutcomesSameRun(m, run, ok, ok', version, target, k + 1, effect.schema);
      }
    }
  }

  lemma SameOutcomesSameResult<A>(m: Migrations, run: Script<A>, ok: Stmt -> bool, ok': Stmt -> bool,
                                  read: Cell -> Option<uint64>, target: uint64, db: Database<A>)
    requires m.Valid() && forall stmt :: ok(stmt) == ok'(stmt)
    ensures Migrated(m, run, ok, read, target, db) == Migrated(m, run, ok', read, target, db)
  {
    var ready := EnsureVersions(db);
    var stored := StoredVersion(ready.versions.value, read);
    if target <= |m.ups| && stored.Some? && stored.value <= |m.ups| {
      SameOutcomesSameRun(m, run, ok, ok', stored.value, target, 0, ready.schema);
    }
  }

  /**
   Both packages migrate equal databases with the same scripts, each step failing in one
   exactly if it fails in the other: they succeed or fail together and end with equal
   committed databases, unless the first stored version is NULL; then the transaction one
   fails, and they differ exactly if the savepoint one succeeds.
   */
  method MigrateBoth<A>(m: Migrations, handle: T.Handle<A>, conn: S.Conn<A>, t: T.Env<A>, s: S.Env<A>, target: uint64)
    returns (viaTransaction: bool, viaSavepoint: bool)
    requires m.Valid() && !handle.open && conn.Valid() && conn.saves == [] && !conn.interrupted
    requires handle.committed == conn.committed
    requires t.run == s.run && forall stmt :: t.Succeeds(stmt) == s.Succeeds(stmt)
    modifies handle, conn
    ensures !handle.open && conn.saves == []
    ensures !StartsWithNull(old(conn.committed)) ==>
              viaTransaction == viaSavepoint && handle.committed == conn.committed
    ensures StartsWithNull(old(conn.committed)) ==>
              !viaTransaction && handle.committed == old(handle.committed)
    ensures !viaTransaction && !viaSavepoint ==> handle.committed == conn.committed == old(conn.committed)
  {
    ghost var db := conn.committed;
    SameOutcomesSameResult(m, s.run, t.Succeeds, s.Succeeds, ScanCell, target, db);
    MigratorsAgree(m, s.run, s.Succeeds, target, db);
    var r := handle.Migrate(m, t, target);
    viaTransaction := r.Ok?;
    var r' := conn.Migrate(m, s, target);
    viaSavepoint := r'.Ok?;
  }

  /** One use of either package, with everything that can happen to it. */
  datatype Use<!A> =
    | ViaTransaction(t: T.Env<A>, target: uint64)
    | ViaSavepoint(s: S.Env<A>, target: uint64)
  {
    function Run(): Script<A> {
      if ViaTransaction? then t.run else s.run
    }

    function AsCall(): Call {
      if ViaTransaction? then Call(Transaction, target, t.Succeeds) else Call(Savepoint, target, s.Succeeds)
    }
  }

  function Calls<A>(uses: seq<Use<A>>): (calls: seq<Call>)
    ensures |calls| == |uses| && forall i :: 0 <= i < |uses| ==> calls[i] == uses[i].AsCall()
  {
    seq(|uses|, i requires 0 <= i < |uses| => uses[i].AsCall())
  }

  lemma {:induction false} AfterAppends<A>(m: Migrations, run: Script<A>, calls: seq<Call>, last: Call, db: Database<A>)
    requires m.Valid()
    ensures After(m, run, calls + [last], db) == AfterCall(m, run, last, After(m, run, calls, db))
    decreases |calls|
  {
    if calls == [] {
      assert calls + [last] == [last] && [last][1..] == [];
      assert After(m, run, [], AfterCall(m, run, last, db)) == AfterCall(m, run, last, db);
    } else {
      assert (calls + [last])[1..] == calls[1..] + [last];
      AfterAppends(m, run, calls[1..], last, AfterCall(m, run, calls[0], db));
    }
  }

  /** One use on a fresh handle or connection, as a new process makes it. */
  method UseOnce<A>(m: Migrations, use: Use<A>, db: Database<A>) returns (next: Database<A>)
    requires m.Valid()
    ensures next == AfterCall(m, use.Run(), use.AsCall(), db)
  {
    match use
    case ViaTransaction(t, target) =>
      var handle := new T.Handle(db);
      var r := handle.Migrate(m, t, target);
      next := handle.committed;
    case ViaSavepoint(s, target) =>
      var conn := new S.Conn(db);
      var r := conn.Migrate(m, s, target);
      next := conn.committed;
  }

  /**
   Uses of both packages one after the other on one database leave what the run of calls
   in `MigrationPaths` says; in particular the schema that the recorded version stands for,
   if no down script leads astray.
   */
  method UseInTurn<A>(m: Migrations, run: Script<A>, uses: seq<Use<A>>, base: A, db: Database<A>) returns (end: Database<A>)
    requires m.Valid() && forall i :: 0 <= i < |uses| ==> uses[i].Run() == run
    ensures end == After(m, run, Calls(uses), db)
    ensures NeverAstray(m, run, base) && Consistent(m, run, base, db) ==> Consistent(m, run, base, end)
  {
    end := db;
    for i := 0 to |uses|
      invariant end == After(m, run, Calls(uses[..i]), db)
    {
      assert Calls(uses[..i + 1]) == Calls(uses[..i]) + [uses[i].AsCall()];
      AfterAppends(m, run, Calls(uses[..i]), uses[i].AsCall(), db);
      end := UseOnce(m, uses[i], end);
    }
    assert uses[..|uses|] == uses;
    if NeverAstray(m, run, base) && Consistent(m, run, base, db) {
      RunsStayConsistent(m, run, base, Calls(uses), db);
    }
  }
}
