/**
 Any number of migrators on one database, their transactions interleaved statement by
 statement. Transactions are serialisable: a transaction works on the state it saw at
 its first statement, and a commit that writes is refused if another one got in between.
 */
module ConcurrentMigrators {
  import opened Common
  import opened MigrationSpec
  import opened MigrationPaths

  /** `ran` lists the scripts that have completed in this transaction. */
  datatype Tx<+S> = Tx(target: uint64, epoch: nat, snapshot: Database<S>, working: Database<S>, ran: seq<Job>)

  /** Where one migrator stands. `k` counts the scripts it has run. */
  datatype Phase<+S> =
    | Idle
    | Opened(next: uint64)
    | Ensured(tx: Tx<S>)
    | Running(tx: Tx<S>, version: uint64, k: nat)
    | Deleted(tx: Tx<S>, version: uint64)
    | Written(tx: Tx<S>, version: uint64)

  /** One statement of one migrator; `Fail` stands for any error followed by a rollback. */
  datatype Action =
    | Start(target: uint64)
    | Ensure
    | ReadVersion
    | RunNext
    | DeleteVersion
    | InsertVersion
    | TryCommit
    | Fail

  /**
   `epoch` counts the commits that wrote. `log` lists their targets, `effects` the scripts
   whose work they made permanent, `successes` counts the calls that returned nil.
   */
  datatype State<+S> = State(
    committed: Database<S>,
    epoch: nat,
    procs: seq<Phase<S>>,
    log: seq<uint64>,
    effects: seq<Job>,
    successes: nat)

  function Initial<S>(db: Database<S>, migrators: nat): State<S> {
    State(db, 0, seq(migrators, _ => Idle), [], [], 0)
  }

  /** The next phase of a migrator that does not commit; a step that is not its turn changes nothing. */
  function Advance<S>(m: Migrations, run: Script<S>, committed: Database<S>, epoch: nat, phase: Phase<S>, action: Action): Phase<S>
    requires m.Valid()
  {
    match action
    case Start(target) =>
      if phase.Idle? && target <= |m.ups| then Opened(target) else phase
    case Ensure =>
      if phase.Opened? then Ensured(Tx(phase.next, epoch, committed, EnsureVersions(committed), [])) else phase
    case ReadVersion =>
      if !phase.Ensured? || phase.tx.working.versions.None? then phase
      else
        var stored := StoredVersion(phase.tx.working.versions.value, ScanCell);
        if stored.Some? && stored.value <= |m.ups| then Running(phase.tx, stored.value, 0) else Idle
    case RunNext =>
      if phase.Running? && phase.tx.target <= |m.ups| && phase.version <= |m.ups|
         && phase.k < Distance(phase.version, phase.tx.target) then
        var job := PlanJob(m, phase.version, phase.tx.target, phase.k);
        var effect := run(job.text, phase.tx.working.schema);
        if effect.Broken? then Idle
        else
          var working := phase.tx.working.(schema := effect.schema);
          Running(phase.tx.(working := working, ran := phase.tx.ran + [job]), phase.version, phase.k + 1)
      else phase
    case DeleteVersion =>
      if phase.Running? && phase.version != phase.tx.target && phase.k == Distance(phase.version, phase.tx.target) then
        Deleted(phase.tx.(working := phase.tx.working.(versions := Some([]))), phase.version)
      else phase
    case InsertVersion =>
      if phase.Deleted? && phase.tx.target < TWO63 then
        Written(phase.tx.(working := phase.tx.working.(versions := Some([Integer(phase.tx.target)]))), phase.version)
      else phase
    case TryCommit => phase
    case Fail => Idle
  }

  predicate MayCommit<S>(phase: Phase<S>) {
    phase.Written? || (phase.Running? && phase.version == phase.tx.target)
  }

  function Step<S(==)>(m: Migrations, run: Script<S>, s: State<S>, p: nat, action: Action): State<S>
    requires m.Valid()
  {
    if |s.procs| <= p then s
    else if action.TryCommit? && MayCommit(s.procs[p]) then
      var tx := s.procs[p].tx;
      var idle := s.(procs := s.procs[p := Idle]);
      if tx.working == tx.snapshot then idle.(successes := s.successes + 1)
      else if tx.epoch == s.epoch then
        idle.(committed := tx.working,
              epoch := s.epoch + 1,
              log := s.log + [tx.target],
              effects := s.effects + tx.ran,
              successes := s.successes + 1)
      else idle
    else
      s.(procs := s.procs[p := Advance(m, run, s.committed, s.epoch, s.procs[p], action)])
  }

  type Schedule = seq<(nat, Action)>

  function Execute<S(==)>(m: Migrations, run: Script<S>, s: State<S>, schedule: Schedule): State<S>
    requires m.Valid()
    decreases |schedule|
  {
    if schedule == [] then s
    else Execute(m, run, Step(m, run, s, schedule[0].0, schedule[0].1), schedule[1..])
  }

  /** The calls of a log made one after the other, without faults, as long as they succeed. */
  function Serial<S>(m: Migrations, run: Script<S>, log: seq<uint64>, db: Database<S>): Option<Database<S>>
    requires m.Valid()
  {
    if log == [] then Some(db)
    else
      var before := Serial(m, run, log[..|log| - 1], db);
      if before.None? then None
      else
        match Migrated(m, run, NoFaults, ScanCell, log[|log| - 1], before.value)
        case Ok(next) => Some(next)
        case Err(_) => None
  }

  /** The scripts of some jobs one after the other, as long as they complete. */
  function Replay<S>(run: Script<S>, jobs: seq<Job>, schema: S): Option<S> {
    if jobs == [] then Some(schema)
    else
      var before := Replay(run, jobs[..|jobs| - 1], schema);
      if before.None? then None
      else
        match run(jobs[|jobs| - 1].text, before.value)
        case Done(next) => Some(next)
        case Broken(_) => None
  }

  lemma {:induction false} ReplayAppends<S>(run: Script<S>, a: seq<Job>, b: seq<Job>, schema: S)
    requires Replay(run, a, schema).Some?
    ensures Replay(run, a + b, schema) == Replay(run, b, Replay(run, a, schema).value)
    decreases |b|
  {
    if b == [] {
      assert a + b == a;
    } else {
      assert (a + b)[..|a + b| - 1] == a + b[..|b| - 1];
      ReplayAppends(run, a, b[..|b| - 1], schema);
    }
  }

  ghost predicate TxInv<S>(m: Migrations, run: Script<S>, committed: Database<S>, epoch: nat, tx: Tx<S>)
    requires m.Valid()
  {
    && tx.target <= |m.ups|
    && tx.epoch <= epoch
    && (tx.epoch == epoch ==> tx.snapshot == committed)
    && Replay(run, tx.ran, tx.snapshot.schema) == Some(tx.working.schema)
  }

  ghost predicate ReadsVersion<S>(m: Migrations, tx: Tx<S>, version: uint64) {
    Version(tx.snapshot) == Some(version) && version <= |m.ups|
  }

  /** What a migrator has done so far to its own copy of the database. */
  ghost predicate PhaseInv<S>(m: Migrations, run: Script<S>, committed: Database<S>, epoch: nat, phase: Phase<S>)
    requires m.Valid()
  {
    match phase
    case Idle => true
    case Opened(next) => next <= |m.ups|
    case Ensured(tx) =>
      TxInv(m, run, committed, epoch, tx) && tx.working == EnsureVersions(tx.snapshot) && tx.ran == []
    case Running(tx, version, k) =>
      && TxInv(m, run, committed, epoch, tx) && ReadsVersion(m, tx, version)
      && k <= Distance(version, tx.target) && tx.ran == Plan(m, version, tx.target, k)
      && tx.working == EnsureVersions(tx.snapshot).(schema := tx.working.schema)
      && RunFrom(m, run, NoFaults, version, tx.target, 0, tx.snapshot.schema)
         == RunFrom(m, run, NoFaults, version, tx.target, k, tx.working.schema)
    case Deleted(tx, version) =>
      && TxInv(m, run, committed, epoch, tx) && ReadsVersion(m, tx, version)
      && version != tx.target && tx.ran == FullPlan(m, version, tx.target)
      && RunFrom(m, run, NoFaults, version, tx.target, 0, tx.snapshot.schema) == Ok(tx.working.schema)
    case Written(tx, version) =>
      && TxInv(m, run, committed, epoch, tx) && ReadsVersion(m, tx, version)
      && version != tx.target && tx.ran == FullPlan(m, version, tx.target)
      && RunFrom(m, run, NoFaults, version, tx.target, 0, tx.snapshot.schema) == Ok(tx.working.schema)
      && tx.working.versions == Some([Integer(tx.target)])
  }

  ghost predicate Inv<S>(m: Migrations, run: Script<S>, initial: Database<S>, s: State<S>)
    requires m.Valid()
  {
    && Serial(m, run, s.log, initial) == Some(s.committed)
    && Replay(run, s.effects, initial.schema) == Some(s.committed.schema)
    && forall p :: 0 <= p < |s.procs| ==> PhaseInv(m, run, s.committed, s.epoch, s.procs[p])
  }

  /** Which transactions a migrator may commit: exactly what one undisturbed call would commit. */
  lemma CommitIsOneCall<S>(m: Migrations, run: Script<S>, committed: Database<S>, epoch: nat, phase: Phase<S>)
    requires m.Valid() && MayCommit(phase) && PhaseInv(m, run, committed, epoch, phase)
    ensures Migrated(m, run, NoFaults, ScanCell, phase.tx.target, phase.tx.snapshot) == Ok(phase.tx.working)
    ensures Version(phase.tx.working) == Some(phase.tx.target)
    ensures phase.tx.ran == FullPlan(m, phase.version, phase.tx.target)
  {
  }

  /** A script that completes adds its job to the plan carried out so far. */
  lemma RunNextKeepsInv<S>(m: Migrations, run: Script<S>, committed: Database<S>, epoch: nat, phase: Phase<S>)
    requires m.Valid() && phase.Running? && PhaseInv(m, run, committed, epoch, phase)
    ensures PhaseInv(m, run, committed, epoch, Advance(m, run, committed, epoch, phase, RunNext))
  {
    var tx := phase.tx;
    if phase.k < Distance(phase.version, tx.target) {
      var job := PlanJob(m, phase.version, tx.target, phase.k);
      assert (tx.ran + [job])[..|tx.ran|] == tx.ran;
    }
  }

  lemma ReadVersionKeepsInv<S>(m: Migrations, run: Script<S>, committed: Database<S>, epoch: nat, phase: Phase<S>)
    requires m.Valid() && phase.Ensured? && PhaseInv(m, run, committed, epoch, phase)
    ensures PhaseInv(m, run, committed, epoch, Advance(m, run, committed, epoch, phase, ReadVersion))
  {
  }

  lemma VersionKeepsInv<S>(m: Migrations, run: Script<S>, committed: Database<S>, epoch: nat, phase: Phase<S>)
    requires m.Valid() && PhaseInv(m, run, committed, epoch, phase)
    ensures PhaseInv(m, run, committed, epoch, Advance(m, run, committed, epoch, phase, DeleteVersion))
    ensures PhaseInv(m, run, committed, epoch, Advance(m, run, committed, epoch, phase, InsertVersion))
  {
  }

  lemma AdvanceKeepsInv<S>(m: Migrations, run: Script<S>, committed: Database<S>, epoch: nat, phase: Phase<S>, action: Action)
    requires m.Valid() && PhaseInv(m, run, committed, epoch, phase)
    ensures PhaseInv(m, run, committed, epoch, Advance(m, run, committed, epoch, phase, action))
  {
    match action
    case RunNext =>
      if phase.Running? {
        RunNextKeepsInv(m, run, committed, epoch, phase);
      }
    case ReadVersion =>
      if phase.Ensured? {
        ReadVersionKeepsInv(m, run, committed, epoch, phase);
      }
    case DeleteVersion => VersionKeepsInv(m, run, committed, epoch, phase);
    case InsertVersion => VersionKeepsInv(m, run, committed, epoch, phase);
    case _ =>
  }

  /** A commit leaves the transactions of the others valid: those it overtakes are out of date. */
  lemma CommitKeepsPhases<S>(m: Migrations, run: Script<S>, s: State<S>, p: nat)
    requires m.Valid() && p < |s.procs| && MayCommit(s.procs[p])
    requires forall q :: 0 <= q < |s.procs| ==> PhaseInv(m, run, s.committed, s.epoch, s.procs[q])
    ensures var s' := Step(m, run, s, p, TryCommit);
            forall q :: 0 <= q < |s'.procs| ==> PhaseInv(m, run, s'.committed, s'.epoch, s'.procs[q])
  {
  }

  lemma CommitKeepsInv<S>(m: Migrations, run: Script<S>, initial: Database<S>, s: State<S>, p: nat)
    requires m.Valid() && Inv(m, run, initial, s)
    requires p < |s.procs| && MayCommit(s.procs[p])
    ensures Inv(m, run, initial, Step(m, run, s, p, TryCommit))
  {
    var tx := s.procs[p].tx;
    CommitKeepsPhases(m, run, s, p);
    CommitIsOneCall(m, run, s.committed, s.epoch, s.procs[p]);
    assert (s.log + [tx.target])[..|s.log|] == s.log;
    ReplayAppends(run, s.effects, tx.ran, initial.schema);
    assert Replay(run, tx.ran, tx.snapshot.schema) == Some(tx.working.schema);
  }

  lemma StepKeepsInv<S>(m: Migrations, run: Script<S>, initial: Database<S>, s: State<S>, p: nat, action: Action)
    requires m.Valid() && Inv(m, run, initial, s)
    ensures Inv(m, run, initial, Step(m, run, s, p, action))
  {
    if p < |s.procs| {
      if action.TryCommit? && MayCommit(s.procs[p]) {
        CommitKeepsInv(m, run, initial, s, p);
      } else {
        AdvanceKeepsInv(m, run, s.committed, s.epoch, s.procs[p], action);
      }
    }
  }

  lemma {:induction false} ExecuteKeepsInv<S>(m: Migrations, run: Script<S>, initial: Database<S>, s: State<S>, schedule: Schedule)
    requires m.Valid() && Inv(m, run, initial, s)
    ensures Inv(m, run, initial, Execute(m, run, s, schedule))
    decreases |schedule|
  {
    if schedule != [] {
      StepKeepsInv(m, run, initial, s, schedule[0].0, schedule[0].1);
      ExecuteKeepsInv(m, run, initial, Step(m, run, s, schedule[0].0, schedule[0].1), schedule[1..]);
    }
  }

  /**
   Concurrent migration is serialisable, for every database and all scripts, every number
   of migrators, all targets and every interleaving: the writers that succeeded, called one
   after the other, would all succeed and leave the committed database; and its schema is
   what the scripts of the committed transactions, and no others, make of the initial one.
   */
  lemma EveryCommittedStateIsSerial<S>(m: Migrations, run: Script<S>, db: Database<S>, migrators: nat, schedule: Schedule)
    requires m.Valid()
    ensures var end := Execute(m, run, Initial(db, migrators), schedule);
            && Serial(m, run, end.log, db) == Some(end.committed)
            && Replay(run, end.effects, db.schema) == Some(end.committed.schema)
  {
    ExecuteKeepsInv(m, run, db, Initial(db, migrators), schedule);
  }

  lemma {:induction false} SerialStaysConsistent<S>(m: Migrations, run: Script<S>, base: S, log: seq<uint64>, db: Database<S>)
    requires m.Valid() && NeverAstray(m, run, base) && Consistent(m, run, base, db)
    ensures var end := Serial(m, run, log, db);
            end.Some? ==> Consistent(m, run, base, end.value)
  {
    if log != [] {
      var front := log[..|log| - 1];
      SerialStaysConsistent(m, run, base, front, db);
      var before := Serial(m, run, front, db);
      if before.Some? {
        MigrateReachesTarget(m, run, NoFaults, Transaction, base, log[|log| - 1], before.value);
      }
    }
  }

  /**
   If down scripts never lead astray, the committed schema is always the initial one with
   exactly the first v up scripts applied, v being the recorded version.
   */
  lemma EveryCommittedStateIsConsistent<S>(m: Migrations, run: Script<S>, base: S, db: Database<S>,
                                           migrators: nat, schedule: Schedule)
    requires m.Valid() && NeverAstray(m, run, base) && Consistent(m, run, base, db)
    ensures Consistent(m, run, base, Execute(m, run, Initial(db, migrators), schedule).committed)
  {
    EveryCommittedStateIsSerial(m, run, db, migrators, schedule);
    SerialStaysConsistent(m, run, base, Execute(m, run, Initial(db, migrators), schedule).log, db);
  }

  ghost predicate OneTarget(schedule: Schedule, target: uint64) {
    forall i :: 0 <= i < |schedule| && schedule[i].1.Start? ==> schedule[i].1.target == target
  }

  /** The target exists and the recorded version is one from which a call may start. */
  predicate Migratable<S>(m: Migrations, target: uint64, db: Database<S>) {
    target <= |m.ups| && Version(db).Some? && Version(db).value <= |m.ups|
  }

  /** With one common target a transaction sees the first database or the target recorded. */
  ghost predicate SeenInv<S>(db: Database<S>, committed: Database<S>, target: uint64, phase: Phase<S>) {
    && (phase.Opened? ==> phase.next == target)
    && (!phase.Idle? && !phase.Opened? ==>
          && phase.tx.target == target
          && (phase.tx.snapshot == db || Version(phase.tx.snapshot) == Some(target))
          && (Version(phase.tx.snapshot) == Some(target) ==> Version(committed) == Some(target)))
  }

  /** Either the target is recorded and each script has taken effect once, or nothing has happened. */
  ghost predicate OnceOrNotAtAll<S>(m: Migrations, db: Database<S>, target: uint64, s: State<S>)
    requires m.Valid() && Migratable(m, target, db)
  {
    if Version(s.committed) == Some(target) then s.effects == FullPlan(m, Version(db).value, target)
    else s.committed == db && s.effects == [] && s.successes == 0
  }

  ghost predicate CommonInv<S>(m: Migrations, db: Database<S>, target: uint64, s: State<S>)
    requires m.Valid() && Migratable(m, target, db)
  {
    && OnceOrNotAtAll(m, db, target, s)
    && AllSee(db, s.committed, target, s.procs)
  }

  lemma AdvanceKeepsSeenInv<S>(m: Migrations, run: Script<S>, db: Database<S>, committed: Database<S>, epoch: nat,
                               target: uint64, phase: Phase<S>, action: Action)
    requires m.Valid() && (action.Start? ==> action.target == target)
    requires committed == db || Version(committed) == Some(target)
    requires SeenInv(db, committed, target, phase)
    ensures SeenInv(db, committed, target, Advance(m, run, committed, epoch, phase, action))
  {
  }

  ghost predicate AllSee<S>(db: Database<S>, committed: Database<S>, target: uint64, procs: seq<Phase<S>>) {
    forall p :: 0 <= p < |procs| ==> SeenInv(db, committed, target, procs[p])
  }

  /** What the others have seen stays true when the target gets recorded. */
  lemma SeenByOthers<S>(db: Database<S>, committed: Database<S>, committed': Database<S>, target: uint64,
                        procs: seq<Phase<S>>, p: nat)
    requires p < |procs| && AllSee(db, committed, target, procs)
    requires committed' == committed || Version(committed') == Some(target)
    ensures AllSee(db, committed', target, procs[p := Idle])
  {
  }

  /** What a commit makes of the database and the effects, with one common target. */
  lemma CommitKeepsOneTarget<S>(m: Migrations, run: Script<S>, db: Database<S>, target: uint64, s: State<S>, p: nat)
    requires m.Valid() && Migratable(m, target, db)
    requires Inv(m, run, db, s) && OnceOrNotAtAll(m, db, target, s)
    requires p < |s.procs| && MayCommit(s.procs[p]) && SeenInv(db, s.committed, target, s.procs[p])
    ensures var s' := Step(m, run, s, p, TryCommit);
            && OnceOrNotAtAll(m, db, target, s')
            && s'.procs == s.procs[p := Idle]
            && (s'.committed == s.committed || Version(s'.committed) == Some(target))
  {
    var phase := s.procs[p];
    CommitIsOneCall(m, run, s.committed, s.epoch, phase);
    assert FullPlan(m, target, target) == [];
    assert phase.tx.ran == FullPlan(m, phase.version, target);
    assert Version(phase.tx.snapshot) == Some(phase.version);
  }

  lemma CommitKeepsCommonInv<S>(m: Migrations, run: Script<S>, db: Database<S>, target: uint64, s: State<S>, p: nat)
    requires m.Valid() && Migratable(m, target, db)
    requires Inv(m, run, db, s) && CommonInv(m, db, target, s)
    requires p < |s.procs| && MayCommit(s.procs[p])
    ensures CommonInv(m, db, target, Step(m, run, s, p, TryCommit))
  {
    assert SeenInv(db, s.committed, target, s.procs[p]);
    CommitKeepsOneTarget(m, run, db, target, s, p);
    SeenByOthers(db, s.committed, Step(m, run, s, p, TryCommit).committed, target, s.procs, p);
  }

  lemma StepKeepsCommonInv<S>(m: Migrations, run: Script<S>, db: Database<S>, target: uint64, s: State<S>, p: nat, action: Action)
    requires m.Valid() && Migratable(m, target, db)
    requires action.Start? ==> action.target == target
    requires Inv(m, run, db, s) && CommonInv(m, db, target, s)
    ensures CommonInv(m, db, target, Step(m, run, s, p, action))
  {
    if p < |s.procs| {
      var phase := s.procs[p];
      if action.TryCommit? && MayCommit(phase) {
        CommitKeepsCommonInv(m, run, db, target, s, p);
      } else {
        AdvanceKeepsSeenInv(m, run, db, s.committed, s.epoch, target, phase, action);
      }
    }
  }

  lemma {:induction false} ExecuteKeepsCommonInv<S>(m: Migrations, run: Script<S>, db: Database<S>,
                                                   target: uint64, s: State<S>, schedule: Schedule)
    requires m.Valid() && Migratable(m, target, db) && OneTarget(schedule, target)
    requires Inv(m, run, db, s) && CommonInv(m, db, target, s)
    ensures CommonInv(m, db, target, Execute(m, run, s, schedule))
    decreases |schedule|
  {
    if schedule != [] {
      StepKeepsInv(m, run, db, s, schedule[0].0, schedule[0].1);
      StepKeepsCommonInv(m, run, db, target, s, schedule[0].0, schedule[0].1);
      ExecuteKeepsCommonInv(m, run, db, target, Step(m, run, s, schedule[0].0, schedule[0].1), schedule[1..]);
    }
  }

  /** Nobody has got beyond reading a version that no call can start from. */
  ghost predicate Untouched<S>(m: Migrations, db: Database<S>, target: uint64, s: State<S>) {
    && s.committed == db && s.effects == [] && s.successes == 0
    && forall p :: 0 <= p < |s.procs| ==>
                     && (s.procs[p].Idle? || s.procs[p].Opened? || s.procs[p].Ensured?)
                     && (s.procs[p].Opened? ==> s.procs[p].next == target <= |m.ups|)
                     && (s.procs[p].Ensured? ==> target <= |m.ups| && s.procs[p].tx.working == EnsureVersions(db))
  }

  lemma {:induction false} ExecuteKeepsUntouched<S>(m: Migrations, run: Script<S>, db: Database<S>,
                                                   target: uint64, s: State<S>, schedule: Schedule)
    requires m.Valid() && !Migratable(m, target, db) && OneTarget(schedule, target)
    requires Untouched(m, db, target, s)
    ensures Untouched(m, db, target, Execute(m, run, s, schedule))
    decreases |schedule|
  {
    if schedule != [] {
      var s' := Step(m, run, s, schedule[0].0, schedule[0].1);
      assert Untouched(m, db, target, s');
      ExecuteKeepsUntouched(m, run, db, target, s', schedule[1..]);
    }
  }

  /**
   Migrators that share one target, on every database and with all scripts: whatever the
   interleaving, either the target is recorded and every script between the first version
   and the target has taken permanent effect exactly once, in order; or the database is as
   it was, nothing has taken effect and no call has returned success. The latter is always
   so if the target does not exist or the recorded version cannot be read or is too high.
   */
  lemma EachScriptTakesEffectOnce<S>(m: Migrations, run: Script<S>, db: Database<S>,
                                     migrators: nat, target: uint64, schedule: Schedule)
    requires m.Valid() && OneTarget(schedule, target)
    ensures var end := Execute(m, run, Initial(db, migrators), schedule);
            || (end.committed == db && end.effects == [] && end.successes == 0)
            || (&& Migratable(m, target, db)
                && Version(end.committed) == Some(target)
                && end.effects == FullPlan(m, Version(db).value, target))
  {
    var start := Initial(db, migrators);
    if Migratable(m, target, db) {
      if Version(db).value == target { assert FullPlan(m, target, target) == []; }
      ExecuteKeepsCommonInv(m, run, db, target, start, schedule);
    } else {
      ExecuteKeepsUntouched(m, run, db, target, start, schedule);
    }
  }

  /** The statements of one migrator that is never interrupted; those that are not its turn change nothing. */
  function Alone(m: Migrations, p: nat, target: uint64): Schedule {
    [(p, Start(target)), (p, Ensure), (p, ReadVersion)]
    + Repeat(p, |m.ups|)
    + [(p, DeleteVersion), (p, InsertVersion), (p, TryCommit)]
  }

  function Repeat(p: nat, n: nat): (steps: Schedule)
    ensures |steps| == n
  {
    if n == 0 then [] else [(p, RunNext)] + Repeat(p, n - 1)
  }

  lemma {:induction false} ExecuteAppends<S>(m: Migrations, run: Script<S>, s: State<S>, a: Schedule, b: Schedule)
    requires m.Valid()
    ensures Execute(m, run, s, a + b) == Execute(m, run, Execute(m, run, s, a), b)
    decreases |a|
  {
    if a == [] {
      assert a + b == b;
    } else {
      assert (a + b)[1..] == a[1..] + b;
      ExecuteAppends(m, run, Step(m, run, s, a[0].0, a[0].1), a[1..], b);
    }
  }

  lemma ThreeSteps<S>(m: Migrations, run: Script<S>, s: State<S>, x: Schedule)
    requires m.Valid() && |x| == 3
    ensures Execute(m, run, s, x) ==
            Step(m, run, Step(m, run, Step(m, run, s, x[0].0, x[0].1), x[1].0, x[1].1), x[2].0, x[2].1)
  {
    var one := Step(m, run, s, x[0].0, x[0].1);
    var two := Step(m, run, one, x[1].0, x[1].1);
    var last: Schedule := [x[2]];
    assert x[1..][1..] == last && |last[1..]| == 0;
    assert Execute(m, run, two, last) == Execute(m, run, Step(m, run, two, x[2].0, x[2].1), []);
    assert Execute(m, run, one, x[1..]) == Execute(m, run, two, x[1..][1..]);
  }

  /** The state with migrator p in another phase. */
  function With<S>(s: State<S>, p: nat, phase: Phase<S>): State<S>
    requires p < |s.procs|
  {
    s.(procs := s.procs[p := phase])
  }

  lemma OpeningAlone<S>(m: Migrations, run: Script<S>, s: State<S>, p: nat, target: uint64)
    requires m.Valid() && p < |s.procs| && s.procs[p].Idle?
    ensures var version := Version(s.committed);
            Execute(m, run, s, [(p, Start(target)), (p, Ensure), (p, ReadVersion)])
            == With(s, p, if Migratable(m, target, s.committed)
                          then Running(Tx(target, s.epoch, s.committed, EnsureVersions(s.committed), []), version.value, 0)
                          else Idle)
  {
    ThreeSteps(m, run, s, [(p, Start(target)), (p, Ensure), (p, ReadVersion)]);
    var one := Step(m, run, s, p, Start(target));
    var two := Step(m, run, one, p, Ensure);
    var tx := Tx(target, s.epoch, s.committed, EnsureVersions(s.committed), []);
    assert one == With(s, p, if target <= |m.ups| then Opened(target) else Idle);
    assert two == With(s, p, if target <= |m.ups| then Ensured(tx) else Idle);
  }

  /** Steps of a phase in which no script is to be run. */
  lemma {:induction false} NothingToRun<S>(m: Migrations, run: Script<S>, s: State<S>, p: nat, n: nat)
    requires m.Valid() && p < |s.procs|
    requires s.procs[p].Idle? ||
             (s.procs[p].Running? && s.procs[p].k == Distance(s.procs[p].version, s.procs[p].tx.target))
    ensures Execute(m, run, s, Repeat(p, n)) == s
  {
    if n > 0 {
      assert Repeat(p, n)[1..] == Repeat(p, n - 1);
      assert Step(m, run, s, p, RunNext) == s;
      NothingToRun(m, run, s, p, n - 1);
    }
  }

  lemma FirstOfRepeat<S>(m: Migrations, run: Script<S>, s: State<S>, p: nat, n: nat)
    requires m.Valid() && n > 0
    ensures Execute(m, run, s, Repeat(p, n)) == Execute(m, run, Step(m, run, s, p, RunNext), Repeat(p, n - 1))
  {
    assert Repeat(p, n)[1..] == Repeat(p, n - 1);
  }

  /** The phase after the rest of the plan: all of it done, or the call over at the first script that breaks off. */
  function AfterScripts<S>(m: Migrations, run: Script<S>, tx: Tx<S>, version: uint64, k: nat): Phase<S>
    requires m.Valid() && version <= |m.ups| && tx.target <= |m.ups| && k <= Distance(version, tx.target)
  {
    match RunFrom(m, run, NoFaults, version, tx.target, k, tx.working.schema)
    case Err(_) => Idle
    case Ok(schema) =>
      Running(tx.(working := tx.working.(schema := schema), ran := FullPlan(m, version, tx.target)),
              version, Distance(version, tx.target))
  }

  /** One script done, or broken off. */
  function NextPhase<S>(m: Migrations, run: Script<S>, tx: Tx<S>, version: uint64, k: nat): Phase<S>
    requires m.Valid() && version <= |m.ups| && tx.target <= |m.ups| && k < Distance(version, tx.target)
  {
    var job := PlanJob(m, version, tx.target, k);
    match run(job.text, tx.working.schema)
    case Broken(_) => Idle
    case Done(schema) => Running(tx.(working := tx.working.(schema := schema), ran := tx.ran + [job]), version, k + 1)
  }

  lemma RunNextAlone<S>(m: Migrations, run: Script<S>, s: State<S>, p: nat, tx: Tx<S>, version: uint64, k: nat)
    requires m.Valid() && p < |s.procs|
    requires version <= |m.ups| && tx.target <= |m.ups| && k < Distance(version, tx.target)
    ensures Step(m, run, With(s, p, Running(tx, version, k)), p, RunNext) == With(s, p, NextPhase(m, run, tx, version, k))
  {
  }

  lemma AfterOneScript<S>(m: Migrations, run: Script<S>, tx: Tx<S>, version: uint64, k: nat)
    requires m.Valid() && version <= |m.ups| && tx.target <= |m.ups| && k < Distance(version, tx.target)
    ensures var next := NextPhase(m, run, tx, version, k);
            AfterScripts(m, run, tx, version, k) == if next.Idle? then Idle else AfterScripts(m, run, next.tx, version, k + 1)
  {
  }

  lemma {:induction false} ScriptsAlone<S>(m: Migrations, run: Script<S>, s: State<S>, p: nat, tx: Tx<S>, version: uint64, k: nat, n: nat)
    requires m.Valid() && p < |s.procs|
    requires version <= |m.ups| && tx.target <= |m.ups| && k <= Distance(version, tx.target) <= k + n
    requires tx.ran == Plan(m, version, tx.target, k)
    ensures Execute(m, run, With(s, p, Running(tx, version, k)), Repeat(p, n))
            == With(s, p, AfterScripts(m, run, tx, version, k))
    decreases n
  {
    if k == Distance(version, tx.target) {
      NothingToRun(m, run, With(s, p, Running(tx, version, k)), p, n);
    } else {
      FirstOfRepeat(m, run, With(s, p, Running(tx, version, k)), p, n);
      RunNextAlone(m, run, s, p, tx, version, k);
      AfterOneScript(m, run, tx, version, k);
      var next := NextPhase(m, run, tx, version, k);
      if next.Idle? {
        NothingToRun(m, run, With(s, p, Idle), p, n - 1);
      } else {
        ScriptsAlone(m, run, s, p, next.tx, version, k + 1, n - 1);
      }
    }
  }

  lemma ClosingAlone<S>(m: Migrations, run: Script<S>, s: State<S>, p: nat)
    requires m.Valid() && p < |s.procs| && s.procs[p].Running? && s.procs[p].tx.epoch == s.epoch
    requires s.procs[p].version <= |m.ups| && s.procs[p].tx.target <= |m.ups|
    requires s.procs[p].version != s.procs[p].tx.target
    requires s.procs[p].k == Distance(s.procs[p].version, s.procs[p].tx.target)
    requires Version(s.procs[p].tx.snapshot) == Some(s.procs[p].version)
    ensures var tx := s.procs[p].tx;
            Execute(m, run, s, [(p, DeleteVersion), (p, InsertVersion), (p, TryCommit)])
            == With(s, p, Idle).(committed := Database(tx.working.schema, Some([Integer(tx.target)])),
                                 epoch := s.epoch + 1,
                                 log := s.log + [tx.target],
                                 effects := s.effects + tx.ran,
                                 successes := s.successes + 1)
  {
    ThreeSteps(m, run, s, [(p, DeleteVersion), (p, InsertVersion), (p, TryCommit)]);
    var written := Database(s.procs[p].tx.working.schema, Some([Integer(s.procs[p].tx.target)]));
    assert Version(written) != Version(s.procs[p].tx.snapshot);
  }

  /** The target is recorded already: the call commits at most the empty table, and succeeds. */
  lemma ClosingNoop<S>(m: Migrations, run: Script<S>, s: State<S>, p: nat)
    requires m.Valid() && p < |s.procs| && s.procs[p].Running? && s.procs[p].tx.epoch == s.epoch
    requires s.procs[p].version == s.procs[p].tx.target && s.procs[p].tx.ran == []
    ensures var tx := s.procs[p].tx;
            Execute(m, run, s, [(p, DeleteVersion), (p, InsertVersion), (p, TryCommit)])
            == if tx.working == tx.snapshot then With(s, p, Idle).(successes := s.successes + 1)
               else With(s, p, Idle).(committed := tx.working,
                                      epoch := s.epoch + 1,
                                      log := s.log + [tx.target],
                                      successes := s.successes + 1)
  {
    ThreeSteps(m, run, s, [(p, DeleteVersion), (p, InsertVersion), (p, TryCommit)]);
    assert s.procs[p := s.procs[p]] == s.procs;
    assert s.effects + [] == s.effects;
  }

  lemma ClosingIdle<S>(m: Migrations, run: Script<S>, s: State<S>, p: nat)
    requires m.Valid() && p < |s.procs| && s.procs[p].Idle?
    ensures Execute(m, run, s, [(p, DeleteVersion), (p, InsertVersion), (p, TryCommit)]) == s
  {
    ThreeSteps(m, run, s, [(p, DeleteVersion), (p, InsertVersion), (p, TryCommit)]);
    assert s.procs[p := s.procs[p]] == s.procs;
  }

  /** What the whole of `Alone` leads to, phase by phase. */
  lemma AloneInParts<S>(m: Migrations, run: Script<S>, s: State<S>, p: nat, target: uint64)
    requires m.Valid()
    ensures Execute(m, run, s, Alone(m, p, target))
            == Execute(m, run,
                       Execute(m, run,
                               Execute(m, run, s, [(p, Start(target)), (p, Ensure), (p, ReadVersion)]),
                               Repeat(p, |m.ups|)),
                       [(p, DeleteVersion), (p, InsertVersion), (p, TryCommit)])
  {
    var opening := [(p, Start(target)), (p, Ensure), (p, ReadVersion)];
    var closing := [(p, DeleteVersion), (p, InsertVersion), (p, TryCommit)];
    ExecuteAppends(m, run, s, opening + Repeat(p, |m.ups|), closing);
    ExecuteAppends(m, run, s, opening, Repeat(p, |m.ups|));
  }

  /** `end` differs from `s` by exactly what the specified call does to it. */
  ghost predicate IsOneCall<S>(m: Migrations, run: Script<S>, s: State<S>, target: uint64, end: State<S>)
    requires m.Valid()
  {
    match Migrated(m, run, NoFaults, ScanCell, target, s.committed)
    case Err(_) => end == s
    case Ok(db) =>
      && end.committed == db
      && Migratable(m, target, s.committed)
      && end.effects == s.effects + FullPlan(m, Version(s.committed).value, target)
      && end.successes == s.successes + 1
      && end.procs == s.procs
      && end.log == (if db == s.committed then s.log else s.log + [target])
      && end.epoch == (if db == s.committed then s.epoch else s.epoch + 1)
  }

  /**
   The interleaved model does what a call does: on every database, for every target and all
   scripts, a migrator that nobody disturbs does exactly what the specified call does. Where
   that fails, nothing at all has changed; where it succeeds, also if the target was recorded
   before, the specified database is committed and the call returns success.
   */
  lemma UndisturbedMigratorIsOneCall<S>(m: Migrations, run: Script<S>, s: State<S>, p: nat, target: uint64)
    requires m.Valid() && p < |s.procs| && s.procs[p].Idle?
    ensures IsOneCall(m, run, s, target, Execute(m, run, s, Alone(m, p, target)))
  {
    var running := Execute(m, run, s, [(p, Start(target)), (p, Ensure), (p, ReadVersion)]);
    AloneInParts(m, run, s, p, target);
    OpeningAlone(m, run, s, p, target);
    assert s.procs[p := Idle] == s.procs;
    if !Migratable(m, target, s.committed) {
      NothingToRun(m, run, running, p, |m.ups|);
      ClosingIdle(m, run, running, p);
    } else {
      RunningAlone(m, run, s, running, p, target);
    }
  }

  lemma RunningAlone<S>(m: Migrations, run: Script<S>, s: State<S>, running: State<S>, p: nat, target: uint64)
    requires m.Valid() && p < |s.procs| && s.procs[p].Idle? && Migratable(m, target, s.committed)
    requires running == With(s, p, Running(Tx(target, s.epoch, s.committed, EnsureVersions(s.committed), []),
                                           Version(s.committed).value, 0))
    ensures IsOneCall(m, run, s, target,
                      Execute(m, run, Execute(m, run, running, Repeat(p, |m.ups|)),
                              [(p, DeleteVersion), (p, InsertVersion), (p, TryCommit)]))
  {
    var version := Version(s.committed).value;
    var tx := Tx(target, s.epoch, s.committed, EnsureVersions(s.committed), []);
    ScriptsAlone(m, run, s, p, tx, version, 0, |m.ups|);
    var done := Execute(m, run, running, Repeat(p, |m.ups|));
    var result := RunFrom(m, run, NoFaults, version, target, 0, s.committed.schema);
    assert s.procs[p := Idle] == s.procs;
    if result.Err? {
      assert done == s;
      ClosingIdle(m, run, done, p);
    } else {
      var tx' := tx.(working := tx.working.(schema := result.value), ran := FullPlan(m, version, target));
      assert done == With(s, p, Running(tx', version, Distance(version, target)));
      DoneAlone(m, run, s, p, tx', version);
    }
  }

  /** All scripts have been run. */
  lemma DoneAlone<S>(m: Migrations, run: Script<S>, s: State<S>, p: nat, tx: Tx<S>, version: uint64)
    requires m.Valid() && p < |s.procs| && s.procs[p].Idle? && Migratable(m, tx.target, s.committed)
    requires Version(s.committed) == Some(version) && tx.epoch == s.epoch && tx.snapshot == s.committed
    requires RunFrom(m, run, NoFaults, version, tx.target, 0, s.committed.schema) == Ok(tx.working.schema)
    requires tx.working == EnsureVersions(s.committed).(schema := tx.working.schema)
    requires tx.ran == FullPlan(m, version, tx.target)
    ensures IsOneCall(m, run, s, tx.target,
                      Execute(m, run, With(s, p, Running(tx, version, Distance(version, tx.target))),
                              [(p, DeleteVersion), (p, InsertVersion), (p, TryCommit)]))
  {
    var done := With(s, p, Running(tx, version, Distance(version, tx.target)));
    assert done.procs[p := Idle] == s.procs;
    if version == tx.target {
      ClosingNoop(m, run, done, p);
      assert s.effects + [] == s.effects;
    } else {
      ClosingAlone(m, run, done, p);
      assert Version(Database(tx.working.schema, Some([Integer(tx.target)]))) == Some(tx.target);
    }
  }

  /** Statements of one migrator. */
  function By(p: nat, actions: seq<Action>): Schedule {
    if actions == [] then [] else [(p, actions[0])] + By(p, actions[1..])
  }

  /** A call that fails before it commits, after whatever statements, has changed nothing. */
  lemma {:induction false} AbandonedCallLeavesNoTrace<S>(m: Migrations, run: Script<S>, s: State<S>, p: nat, actions: seq<Action>)
    requires m.Valid() && p < |s.procs| && TryCommit !in actions
    ensures Execute(m, run, s, By(p, actions) + [(p, Fail)]) == With(s, p, Idle)
    decreases |actions|
  {
    var schedule := By(p, actions) + [(p, Fail)];
    if actions == [] {
      assert schedule == [(p, Fail)] && schedule[1..] == [];
      assert Execute(m, run, Step(m, run, s, p, Fail), []) == With(s, p, Idle);
    } else {
      assert schedule[1..] == By(p, actions[1..]) + [(p, Fail)];
      var s' := Step(m, run, s, p, actions[0]);
      assert actions[0] in actions;
      AbandonedCallLeavesNoTrace(m, run, s', p, actions[1..]);
      assert With(s', p, Idle) == With(s, p, Idle);
    }
  }

  /**
   In every run, a migrator that gets to commit returns success and is done, unless it has
   written and another writer overtook it; then it returns an error and changes nothing.
   If all migrators share one target, success means that the target is recorded.
   */
  lemma CommitSucceedsUnlessOvertaken<S>(m: Migrations, run: Script<S>, db: Database<S>,
                                         migrators: nat, schedule: Schedule, p: nat)
    requires m.Valid()
    ensures var s := Execute(m, run, Initial(db, migrators), schedule);
            p < |s.procs| && MayCommit(s.procs[p]) ==>
              var s' := Step(m, run, s, p, TryCommit);
              var tx := s.procs[p].tx;
              && s'.procs == s.procs[p := Idle]
              && (if tx.working == tx.snapshot || tx.epoch == s.epoch then
                    && s'.successes == s.successes + 1
                    && s'.effects == s.effects + tx.ran
                    && (OneTarget(schedule, tx.target) ==> Version(s'.committed) == Some(tx.target))
                  else s' == With(s, p, Idle))
  {
    var s := Execute(m, run, Initial(db, migrators), schedule);
    if p < |s.procs| && MayCommit(s.procs[p]) {
      var tx := s.procs[p].tx;
      ExecuteKeepsInv(m, run, db, Initial(db, migrators), schedule);
      CommitIsOneCall(m, run, s.committed, s.epoch, s.procs[p]);
      NothingWrittenNothingRun(m, run, s.committed, s.epoch, s.procs[p]);
      if OneTarget(schedule, tx.target) && (tx.working == tx.snapshot || tx.epoch == s.epoch) {
        RecordedAfterCommit(m, run, db, migrators, schedule, p);
      }
    }
  }

  lemma NothingWrittenNothingRun<S>(m: Migrations, run: Script<S>, committed: Database<S>, epoch: nat, phase: Phase<S>)
    requires m.Valid() && MayCommit(phase) && PhaseInv(m, run, committed, epoch, phase)
    ensures phase.tx.working == phase.tx.snapshot ==> phase.tx.ran == []
  {
    CommitIsOneCall(m, run, committed, epoch, phase);
    assert Version(phase.tx.working) == Some(phase.tx.target);
    assert Version(phase.tx.snapshot) == Some(phase.version);
  }

  lemma RecordedAfterCommit<S>(m: Migrations, run: Script<S>, db: Database<S>, migrators: nat, schedule: Schedule, p: nat)
    requires m.Valid()
    requires var s := Execute(m, run, Initial(db, migrators), schedule);
             && p < |s.procs| && MayCommit(s.procs[p]) && OneTarget(schedule, s.procs[p].tx.target)
             && (s.procs[p].tx.working == s.procs[p].tx.snapshot || s.procs[p].tx.epoch == s.epoch)
    ensures var s := Execute(m, run, Initial(db, migrators), schedule);
            Version(Step(m, run, s, p, TryCommit).committed) == Some(s.procs[p].tx.target)
  {
    var start := Initial(db, migrators);
    var s := Execute(m, run, start, schedule);
    var target := s.procs[p].tx.target;
    ExecuteKeepsInv(m, run, db, start, schedule);
    CommitIsOneCall(m, run, s.committed, s.epoch, s.procs[p]);
    if Migratable(m, target, db) {
      if Version(db).value == target { assert FullPlan(m, target, target) == []; }
      ExecuteKeepsCommonInv(m, run, db, target, start, schedule);
      assert SeenInv(db, s.committed, target, s.procs[p]);
    } else {
      ExecuteKeepsUntouched(m, run, db, target, start, schedule);
    }
  }
}
