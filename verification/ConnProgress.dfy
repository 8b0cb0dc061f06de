/** The connection cache never gets stuck: from every reachable state all calls can return. */
module ConnProgress {
  import opened Common
  import opened ConnProtocol

  /** How many steps a caller needs at most until its call returns. */
  function Remaining(pc: Pc): nat {
    match pc
    case Idle => 0
    case Hit(_, _) => 1
    case Leaving(_, _) => 1
    case Stopping(todo, _, _) => 1 + |todo|
    case Dialed(_, _) => 2
    case Dialing(_) => 3
    case Locked(_) => 4
    case Missed(_) => 5
    case ReadDone(_, _) => 6
    case Reading(_) => 7
  }

  function IsGet(pc: Pc): nat {
    if pc.Idle? || pc.Stopping? then 0 else 1
  }

  function IsStop(pc: Pc): nat {
    if pc.Stopping? then 1 else 0
  }

  function Sum(procs: seq<Pc>, f: Pc -> nat): nat {
    if procs == [] then 0 else Sum(procs[..|procs| - 1], f) + f(procs[|procs| - 1])
  }

  lemma {:induction false} SumUpdate(procs: seq<Pc>, f: Pc -> nat, p: nat, pc: Pc)
    requires p < |procs|
    ensures Sum(procs[p := pc], f) + f(procs[p]) == Sum(procs, f) + f(pc)
  {
    var n := |procs| - 1;
    if p < n {
      SumUpdate(procs[..n], f, p, pc);
      assert procs[p := pc][..n] == procs[..n][p := pc];
    } else {
      assert procs[p := pc][..n] == procs[..n];
    }
  }

  lemma {:induction false} SumOfIdle(procs: seq<Pc>, f: Pc -> nat)
    requires f(Idle) == 0 && forall p :: 0 <= p < |procs| ==> procs[p].Idle?
    ensures Sum(procs, f) == 0
  {
    if procs != [] {
      SumOfIdle(procs[..|procs| - 1], f);
    }
  }

  /** The step that brings a caller closer to its return. */
  ghost predicate Forward(s: State, p: nat, action: Action)
    requires p < |s.procs|
  {
    var pc, s' := s.procs[p], Step(s, p, action);
    && s'.procs == s.procs[p := s'.procs[p]]
    && Remaining(s'.procs[p]) < Remaining(pc)
    && |s'.returned| + IsGet(s'.procs[p]) == |s.returned| + IsGet(pc)
    && |s'.stops| + IsStop(s'.procs[p]) == |s.stops| + IsStop(pc)
  }

  lemma ReaderMoves(s: State, p: nat) returns (action: Action)
    requires p < |s.procs| && (HoldsRead(s.procs[p]) || s.procs[p].Hit?)
    ensures Forward(s, p, action)
  {
    action := if s.procs[p].Reading? then Lookup else if s.procs[p].ReadDone? then RUnlock else ReturnHit;
  }

  lemma WriterMoves(s: State, p: nat) returns (action: Action)
    requires p < |s.procs| && HoldsWrite(s.procs[p]) && !s.procs[p].Stopping?
    ensures Forward(s, p, action)
  {
    match s.procs[p]
    case Locked(_) => action := Recheck;
    case Dialing(_) => action := Dial(false);
    case Dialed(_, _) => action := Store;
    case Leaving(_, _) => action := Unlock;
  }

  lemma StopMoves(s: State, p: nat) returns (action: Action)
    requires p < |s.procs| && s.procs[p].Stopping? && s.procs[p].todo <= s.idx.Keys
    ensures Forward(s, p, action)
  {
    var todo := s.procs[p].todo;
    if todo == {} {
      action := UnlockStopped;
    } else {
      var address :| address in todo;
      action := CloseOne(address, true);
      assert |todo - {address}| < |todo|;
    }
  }

  lemma WaiterMoves(s: State, p: nat)
    requires p < |s.procs| && s.procs[p].Missed? && s.writer.None? && s.readers == {}
    ensures Forward(s, p, Lock)
  {
  }

  /** Who holds the lock, or found a connection, can always go on; others once the lock is free. */
  lemma Unblocked(s: State, p: nat) returns (action: Action)
    requires Inv(s) && p < |s.procs| && !s.procs[p].Idle?
    requires s.procs[p].Missed? ==> s.writer.None? && s.readers == {}
    ensures Forward(s, p, action)
  {
    assert PcInv(s.idx, s.dialed, s.history, s.procs[p]);
    if s.procs[p].Stopping? {
      action := StopMoves(s, p);
    } else if s.procs[p].Missed? {
      action := Lock;
      WaiterMoves(s, p);
    } else if HoldsWrite(s.procs[p]) {
      action := WriterMoves(s, p);
    } else {
      action := ReaderMoves(s, p);
    }
  }

  /** Somebody can always go on: the writer, else a reader, else anyone. */
  lemma SomebodyMoves(s: State, q: nat) returns (p: nat, action: Action)
    requires Inv(s) && q < |s.procs| && !s.procs[q].Idle?
    ensures p < |s.procs| && Forward(s, p, action)
  {
    if s.writer.Some? {
      p := s.writer.value;
    } else if s.readers != {} {
      p :| p in s.readers;
    } else {
      p := q;
    }
    assert HoldsWrite(s.procs[p]) <==> s.writer == Some(p);
    assert HoldsRead(s.procs[p]) <==> p in s.readers;
    action := Unblocked(s, p);
  }

  /** After these steps all calls have ended, each having returned exactly once. */
  ghost predicate BringsBack(s: State, rest: Schedule) {
    var end := Execute(s, rest);
    && (forall p :: 0 <= p < |end.procs| ==> end.procs[p].Idle?)
    && |end.returned| == |s.returned| + Sum(s.procs, IsGet)
    && |end.stops| == |s.stops| + Sum(s.procs, IsStop)
  }

  lemma {:induction false} AllReturn(s: State) returns (schedule: Schedule)
    requires Inv(s)
    ensures BringsBack(s, schedule)
    decreases Sum(s.procs, Remaining)
  {
    if q: nat :| q < |s.procs| && !s.procs[q].Idle? {
      var p, action := SomebodyMoves(s, q);
      var s' := Step(s, p, action);
      StepKeepsInv(s, p, action);
      SumUpdate(s.procs, Remaining, p, s'.procs[p]);
      SumUpdate(s.procs, IsGet, p, s'.procs[p]);
      SumUpdate(s.procs, IsStop, p, s'.procs[p]);
      var rest := AllReturn(s');
      schedule := [(p, action)] + rest;
      assert schedule[1..] == rest;
    } else {
      schedule := [];
      SumOfIdle(s.procs, IsGet);
      SumOfIdle(s.procs, IsStop);
    }
  }

  ghost predicate CanReturn(s: State) {
    exists rest: Schedule :: BringsBack(s, rest)
  }

  /**
   No deadlock and no lost call: whatever any number of callers have done so far, the calls
   under way can all return, every `Get` with a result and every `Stop` with its report.
   */
  lemma NoCallIsStuck(callers: nat, schedule: Schedule)
    ensures CanReturn(Execute(Initial(callers), schedule))
  {
    ExecuteKeepsInv(Initial(callers), schedule);
    var rest := AllReturn(Execute(Initial(callers), schedule));
    assert BringsBack(Execute(Initial(callers), schedule), rest);
  }

  /** Readers are kept out by a writer only, and writers by everybody who holds the lock. */
  lemma WhoBlocks(callers: nat, schedule: Schedule, p: nat, address: string)
    ensures var s := Execute(Initial(callers), schedule);
            p < |s.procs| ==>
              var writing := exists q :: 0 <= q < |s.procs| && HoldsWrite(s.procs[q]);
              var reading := exists q :: 0 <= q < |s.procs| && HoldsRead(s.procs[q]);
              && (s.procs[p].Idle? ==> (Step(s, p, RLock(address)).procs[p] == Reading(address) <==> !writing))
              && (s.procs[p].Idle? ==> (Step(s, p, LockToStop).procs[p].Stopping? <==> !writing && !reading))
              && (s.procs[p].Missed? ==> (Step(s, p, Lock).procs[p].Locked? <==> !writing && !reading))
  {
    ExecuteKeepsInv(Initial(callers), schedule);
    LockIsHeld(Execute(Initial(callers), schedule));
  }

  lemma LockIsHeld(s: State)
    requires LockInv(s)
    ensures s.writer.Some? <==> exists q :: 0 <= q < |s.procs| && HoldsWrite(s.procs[q])
    ensures s.readers != {} <==> exists q :: 0 <= q < |s.procs| && HoldsRead(s.procs[q])
  {
    if s.writer.Some? {
      assert HoldsWrite(s.procs[s.writer.value]);
    }
    if s.readers != {} {
      var q :| q in s.readers;
      assert HoldsRead(s.procs[q]);
    }
  }
}
