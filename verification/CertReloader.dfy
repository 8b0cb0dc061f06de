/** The certificate reloader: one `Start`, one `Stop`, the reloading goroutine and any number of readers. */
module CertReloader {
  import opened Common

  /** The owner of the reloader. */
  datatype Stage = Created | Started | Cancelled | Stopped

  /** The goroutine. Load k is held locally between loading and storing. */
  datatype Worker =
    | Absent
    | Selecting
    | Loading
    | Loaded(k: nat)
    | Holding(k: nat)
    | Stored(k: nat)
    | Exited

  datatype Action =
    | Start
    | Tick
    | FinishLoad(ok: bool)
    | TakeLock
    | Store
    | DropLock
    | Cancel
    | SeeDone
    | StopReturns
    | ReadLock(reader: nat)
    | Read(reader: nat)
    | ReadUnlock(reader: nat)

  /**
   `loads[k]` tells whether the k-th attempt to load the pair succeeded; attempt 0 is the
   eager one. `cert` is the attempt whose certificate is published, `stores` lists those
   published so far, `observed` what readers got, in the order in which they got it.
   */
  datatype State = State(
    loads: seq<bool>,
    cert: nat,
    stage: Stage,
    worker: Worker,
    waiting: nat,
    readers: set<nat>,
    stores: seq<nat>,
    observed: seq<nat>)

  /** `NewCertReloader` loads eagerly and fails if that fails. */
  function New(firstLoad: bool): Option<State> {
    if firstLoad then Some(State([true], 0, Created, Absent, 0, {}, [0], [])) else None
  }

  predicate WriteLocked(w: Worker) {
    w.Holding? || w.Stored?
  }

  /** One step; a step that is not possible changes nothing. */
  function Step(s: State, action: Action): State {
    match action
    case Start =>
      if s.stage.Created? then s.(stage := Started, worker := Selecting, waiting := s.waiting + 1) else s
    case Tick =>
      if s.worker.Selecting? then s.(worker := Loading) else s
    case FinishLoad(ok) =>
      if !s.worker.Loading? then s
      else s.(loads := s.loads + [ok], worker := if ok then Loaded(|s.loads|) else Selecting)
    case TakeLock =>
      if s.worker.Loaded? && s.readers == {} then s.(worker := Holding(s.worker.k)) else s
    case Store =>
      if s.worker.Holding? then
        s.(cert := s.worker.k, stores := s.stores + [s.worker.k], worker := Stored(s.worker.k))
      else s
    case DropLock =>
      if s.worker.Stored? then s.(worker := Selecting) else s
    case Cancel =>
      if s.stage.Started? then s.(stage := Cancelled) else s
    case SeeDone =>
      if s.worker.Selecting? && s.stage.Cancelled? && s.waiting > 0 then
        s.(worker := Exited, waiting := s.waiting - 1)
      else s
    case StopReturns =>
      if s.stage.Cancelled? && s.waiting == 0 then s.(stage := Stopped) else s
    case ReadLock(r) =>
      if WriteLocked(s.worker) then s else s.(readers := s.readers + {r})
    case Read(r) =>
      if r in s.readers then s.(observed := s.observed + [s.cert]) else s
    case ReadUnlock(r) => s.(readers := s.readers - {r})
  }

  function Execute(s: State, schedule: seq<Action>): State
    decreases |schedule|
  {
    if schedule == [] then s else Execute(Step(s, schedule[0]), schedule[1..])
  }

  ghost predicate Ascending(s: seq<nat>) {
    forall i, j :: 0 <= i < j < |s| ==> s[i] <= s[j]
  }

  /** The published certificate is a successful load, the last one stored. */
  ghost predicate CertInv(s: State) {
    && s.cert < |s.loads| && s.loads[s.cert]
    && s.stores != [] && s.stores[|s.stores| - 1] == s.cert
    && (forall i, j :: 0 <= i < j < |s.stores| ==> s.stores[i] < s.stores[j])
    && (forall i :: 0 <= i < |s.stores| ==> s.stores[i] < |s.loads| && s.loads[s.stores[i]])
  }

  /** No success is passed over: a later one is still in the hands of the goroutine. */
  ghost predicate WorkerInv(s: State) {
    && (forall k :: s.cert < k < |s.loads| && s.loads[k] ==> s.worker == Loaded(k) || s.worker == Holding(k))
    && (s.worker.Loaded? || s.worker.Holding? ==>
          s.worker.k + 1 == |s.loads| && s.cert < s.worker.k && s.loads[s.worker.k])
    && (s.worker.Stored? ==> s.cert == s.worker.k)
    && (WriteLocked(s.worker) ==> s.readers == {})
  }

  ghost predicate StageInv(s: State) {
    && (s.stage.Created? <==> s.worker.Absent?)
    && s.waiting == (if s.worker.Absent? || s.worker.Exited? then 0 else 1)
    && (s.stage.Stopped? ==> s.worker.Exited?)
  }

  ghost predicate ReaderInv(s: State) {
    Ascending(s.observed) && forall i :: 0 <= i < |s.observed| ==> s.observed[i] in s.stores && s.observed[i] <= s.cert
  }

  ghost predicate Inv(s: State) {
    CertInv(s) && WorkerInv(s) && StageInv(s) && ReaderInv(s)
  }

  lemma StepKeepsCert(s: State, action: Action)
    requires CertInv(s) && WorkerInv(s)
    ensures CertInv(Step(s, action))
    ensures s.cert <= Step(s, action).cert && s.stores <= Step(s, action).stores
  {
    var s' := Step(s, action);
    if s'.stores != s.stores {
      assert forall i :: 0 <= i < |s.stores| ==> s'.stores[i] == s.stores[i] && s.stores[i] <= s.cert;
    }
  }

  lemma StepKeepsWorker(s: State, action: Action)
    requires CertInv(s) && WorkerInv(s) && StageInv(s)
    ensures WorkerInv(Step(s, action)) && StageInv(Step(s, action))
  {
  }

  lemma StepKeepsReaders(s: State, action: Action)
    requires Inv(s)
    ensures ReaderInv(Step(s, action))
  {
    StepKeepsCert(s, action);
    var s' := Step(s, action);
    forall i | 0 <= i < |s'.observed|
      ensures s'.observed[i] in s'.stores && s'.observed[i] <= s'.cert
    {
      if i < |s.observed| {
        assert s.observed[i] in s.stores;
      } else {
        assert s.stores[|s.stores| - 1] == s.cert;
      }
    }
  }

  lemma {:induction false} ExecuteKeepsInv(s: State, schedule: seq<Action>)
    requires Inv(s)
    ensures Inv(Execute(s, schedule))
    decreases |schedule|
  {
    if schedule != [] {
      StepKeepsCert(s, schedule[0]);
      StepKeepsWorker(s, schedule[0]);
      StepKeepsReaders(s, schedule[0]);
      ExecuteKeepsInv(Step(s, schedule[0]), schedule[1..]);
    }
  }

  /**
   In every interleaving of ticks, loads, cancellation and readers there is a certificate;
   it is the latest stored load, and the latest successful one unless the goroutine still
   holds a newer one; failed loads are never published; and the loads that readers get,
   in the order in which they get them, never go backwards.
   */
  lemma ReadersSeeValidCertificates(schedule: seq<Action>)
    ensures var s := Execute(New(true).value, schedule);
            && s.cert < |s.loads| && s.loads[s.cert]
            && s.stores != [] && s.stores[|s.stores| - 1] == s.cert
            && (forall k :: s.cert < k < |s.loads| && s.loads[k] ==> s.worker == Loaded(k) || s.worker == Holding(k))
            && Ascending(s.observed)
            && (forall i :: 0 <= i < |s.observed| ==> s.observed[i] < |s.loads| && s.loads[s.observed[i]])
  {
    ExecuteKeepsInv(New(true).value, schedule);
    var s := Execute(New(true).value, schedule);
    forall i | 0 <= i < |s.observed|
      ensures s.observed[i] < |s.loads| && s.loads[s.observed[i]]
    {
      var j :| 0 <= j < |s.stores| && s.stores[j] == s.observed[i];
    }
  }

  function Last(stores: seq<nat>): nat
    requires stores != []
  {
    stores[|stores| - 1]
  }

  /**
   In every interleaving: a reader that holds the lock gets the load stored last at that
   moment, nobody else gets anything, and a reader gets the lock unless the goroutine
   holds it for writing.
   */
  lemma EveryReadIsCurrent(before: seq<Action>, action: Action)
    ensures var s := Execute(New(true).value, before);
            var s' := Step(s, action);
            && s.stores != []
            && s'.observed == s.observed + (if action.Read? && action.reader in s.readers then [Last(s.stores)] else [])
            && (action.ReadLock? ==> (action.reader in s'.readers <==> !s.worker.Holding? && !s.worker.Stored?))
  {
    ExecuteKeepsInv(New(true).value, before);
  }

  lemma {:induction false} ExecuteAppends(s: State, a: seq<Action>, b: seq<Action>)
    ensures Execute(s, a + b) == Execute(Execute(s, a), b)
    decreases |a|
  {
    if a == [] {
      assert a + b == b;
    } else {
      assert (a + b)[1..] == a[1..] + b;
      ExecuteAppends(Step(s, a[0]), a[1..], b);
    }
  }

  lemma OneStep(s: State, action: Action, rest: seq<Action>)
    ensures Execute(s, [action] + rest) == Execute(Step(s, action), rest)
  {
    assert ([action] + rest)[1..] == rest;
  }

  /** `GetCertificate`: one whole call of a reader. */
  function Get(r: nat): seq<Action> {
    [ReadLock(r), Read(r), ReadUnlock(r)]
  }

  /** Whenever nobody is storing, a call gets exactly one certificate, the one stored last. */
  lemma GetReturnsLatest(before: seq<Action>, r: nat)
    ensures var s := Execute(New(true).value, before);
            !WriteLocked(s.worker) ==>
              && s.stores != []
              && Execute(s, Get(r)) == s.(observed := s.observed + [Last(s.stores)], readers := s.readers - {r})
  {
    ExecuteKeepsInv(New(true).value, before);
    var s := Execute(New(true).value, before);
    if !WriteLocked(s.worker) {
      GetAlone(s, r);
    }
  }

  lemma GetAlone(s: State, r: nat)
    requires !WriteLocked(s.worker)
    ensures Execute(s, Get(r)) == s.(observed := s.observed + [s.cert], readers := s.readers - {r})
  {
    var one := Step(s, ReadLock(r));
    OneStep(s, ReadLock(r), [Read(r), ReadUnlock(r)]);
    OneStep(one, Read(r), [ReadUnlock(r)]);
    OneStep(Step(one, Read(r)), ReadUnlock(r), []);
    assert s.readers + {r} - {r} == s.readers - {r};
  }

  /** One round of the goroutine that nobody disturbs. */
  function Round(ok: bool): seq<Action> {
    [Tick, FinishLoad(ok), TakeLock, Store, DropLock]
  }

  /**
   A round publishes the new load if it succeeds and otherwise keeps the certificate; either
   way the goroutine waits for the next tick.
   */
  lemma RoundPublishes(s: State, ok: bool)
    requires s.worker.Selecting? && s.readers == {}
    ensures Execute(s, Round(ok)) ==
            if ok then s.(loads := s.loads + [true], cert := |s.loads|, stores := s.stores + [|s.loads|])
            else s.(loads := s.loads + [false])
  {
    var one := Step(s, Tick);
    var two := Step(one, FinishLoad(ok));
    var three := Step(two, TakeLock);
    var four := Step(three, Store);
    OneStep(s, Tick, [FinishLoad(ok), TakeLock, Store, DropLock]);
    OneStep(one, FinishLoad(ok), [TakeLock, Store, DropLock]);
    OneStep(two, TakeLock, [Store, DropLock]);
    OneStep(three, Store, [DropLock]);
    OneStep(four, DropLock, []);
  }

  /** A reader that comes after a successful round gets the new load, whatever was handed out before. */
  lemma NewLoadIsServed(before: seq<Action>, r: nat)
    ensures var s := Execute(New(true).value, before);
            s.worker.Selecting? && s.readers == {} ==>
              Execute(s, Round(true) + Get(r)).observed == s.observed + [|s.loads|]
  {
    var s := Execute(New(true).value, before);
    if s.worker.Selecting? && s.readers == {} {
      RoundPublishes(s, true);
      ExecuteAppends(s, Round(true), Get(r));
      GetAlone(Execute(s, Round(true)), r);
    }
  }

  /** Construction fails exactly if the first load does; a new reloader serves that load and can be started. */
  lemma StartedReloader(firstLoad: bool)
    ensures New(firstLoad).Some? <==> firstLoad
    ensures firstLoad ==>
              var s := Step(New(true).value, Start);
              s.stage.Started? && s.worker.Selecting? && s.loads == [true] && s.stores == [0] && s.cert == 0 && s.observed == []
  {
  }

  /** `Stop`: if the goroutine is between rounds, it sees the cancellation and the call returns. */
  lemma StopFinishes(before: seq<Action>)
    ensures var s := Execute(New(true).value, before);
            s.stage.Started? && s.worker.Selecting? ==>
              Execute(s, [Cancel, SeeDone, StopReturns]) == s.(stage := Stopped, worker := Exited, waiting := 0)
  {
    ExecuteKeepsInv(New(true).value, before);
    var s := Execute(New(true).value, before);
    if s.stage.Started? && s.worker.Selecting? {
      var one := Step(s, Cancel);
      OneStep(s, Cancel, [SeeDone, StopReturns]);
      OneStep(one, SeeDone, [StopReturns]);
      OneStep(Step(one, SeeDone), StopReturns, []);
    }
  }

  lemma {:induction false} StoppedForGood(s: State, schedule: seq<Action>)
    requires Inv(s) && s.stage.Stopped?
    ensures Execute(s, schedule).stores == s.stores && Execute(s, schedule).cert == s.cert
    decreases |schedule|
  {
    if schedule != [] {
      StepKeepsCert(s, schedule[0]);
      StepKeepsWorker(s, schedule[0]);
      StepKeepsReaders(s, schedule[0]);
      StoppedForGood(Step(s, schedule[0]), schedule[1..]);
    }
  }

  /**
   In every run, once `Stop` has returned, nothing is ever stored again, and the published
   certificate is the last one that was loaded successfully.
   */
  lemma NothingStoredAfterStop(before: seq<Action>, after: seq<Action>)
    ensures var s := Execute(New(true).value, before);
            var end := Execute(s, after);
            s.stage.Stopped? ==>
              && end.stores == s.stores && end.cert == s.cert
              && forall k :: s.cert < k < |s.loads| ==> !s.loads[k]
  {
    var s := Execute(New(true).value, before);
    ExecuteKeepsInv(New(true).value, before);
    if s.stage.Stopped? {
      StoppedForGood(s, after);
    }
  }
}
