/** The locked protocol, run by one caller at a time, is the connection cache as an object. */
module ConnAlone {
  import opened Common
  import opened ConnProtocol
  import M = ConnManager

  /** `Get` up to the end of the first lookup. */
  function Read(p: nat, address: string): Schedule {
    [(p, RLock(address)), (p, Lookup), (p, RUnlock), (p, ReturnHit)]
  }

  /** `createConnection`; its steps change nothing if the first lookup found a connection. */
  function Create(p: nat, dialOk: bool): Schedule {
    [(p, Lock), (p, Recheck), (p, Dial(dialOk)), (p, Store), (p, Unlock)]
  }

  /** All steps of one `Get` that nobody interrupts. */
  function Alone(p: nat, address: string, dialOk: bool): Schedule {
    Read(p, address) + Create(p, dialOk)
  }

  lemma {:induction false} ExecuteAppends(s: State, a: Schedule, b: Schedule)
    ensures Execute(s, a + b) == Execute(Execute(s, a), b)
    decreases |a|
  {
    if a == [] {
      assert a + b == b;
    } else {
      assert (a + b)[1..] == a[1..] + b;
      var (p, action) := a[0];
      ExecuteAppends(if p < |s.procs| then Step(s, p, action) else s, a[1..], b);
    }
  }

  lemma OneStep(s: State, p: nat, action: Action, rest: Schedule)
    requires p < |s.procs|
    ensures Execute(s, [(p, action)] + rest) == Execute(Step(s, p, action), rest)
  {
    assert ([(p, action)] + rest)[1..] == rest;
  }

  /** Nobody holds the lock, and p is not inside a call. */
  predicate Free(s: State, p: nat) {
    p < |s.procs| && s.procs[p].Idle? && s.writer.None? && s.readers == {}
  }

  lemma ReadAlone(s: State, p: nat, address: string)
    requires Free(s, p)
    ensures var r := Execute(s, Read(p, address));
            if address in s.idx then
              var e := Event(address, Some(s.idx[address]));
              r == s.(history := s.history + [e], returned := s.returned + [e])
            else r == s.(procs := s.procs[p := Missed(address)])
  {
    var one := Step(s, p, RLock(address));
    var two := Step(one, p, Lookup);
    var three := Step(two, p, RUnlock);
    OneStep(s, p, RLock(address), [(p, Lookup), (p, RUnlock), (p, ReturnHit)]);
    OneStep(one, p, Lookup, [(p, RUnlock), (p, ReturnHit)]);
    OneStep(two, p, RUnlock, [(p, ReturnHit)]);
    OneStep(three, p, ReturnHit, []);
    assert three.readers == {};
    assert Step(three, p, ReturnHit).procs == if address in s.idx then s.procs else s.procs[p := Missed(address)];
  }

  /** The whole state after one undisturbed `Get`. */
  lemma UndisturbedGet(s: State, p: nat, address: string, dialOk: bool)
    requires Free(s, p)
    ensures var end := Execute(s, Alone(p, address, dialOk));
            var conn := if address in s.idx then Some(s.idx[address]) else if dialOk then Some(|s.dialed|) else None;
            && end.idx == (if conn.Some? then s.idx[address := conn.value] else s.idx)
            && end.dialed == (if address !in s.idx && dialOk then s.dialed + [address] else s.dialed)
            && end.returned == s.returned + [Event(address, conn)]
            && end.history == s.history + [Event(address, conn)]
            && end.procs == s.procs && Free(end, p) && end.stops == s.stops
  {
    ExecuteAppends(s, Read(p, address), Create(p, dialOk));
    ReadAlone(s, p, address);
    var read := Execute(s, Read(p, address));
    if address in s.idx {
      NothingToCreate(read, p, dialOk);
      assert s.idx[address := s.idx[address]] == s.idx;
    } else {
      CreateAlone(read, p, address, dialOk);
      assert s.procs[p := Missed(address)][p := Idle] == s.procs;
    }
  }

  lemma CreateSteps(s: State, p: nat, dialOk: bool)
    requires p < |s.procs|
    ensures Execute(s, Create(p, dialOk))
            == Step(Step(Step(Step(Step(s, p, Lock), p, Recheck), p, Dial(dialOk)), p, Store), p, Unlock)
  {
    var one := Step(s, p, Lock);
    var two := Step(one, p, Recheck);
    var three := Step(two, p, Dial(dialOk));
    var four := Step(three, p, Store);
    OneStep(s, p, Lock, [(p, Recheck), (p, Dial(dialOk)), (p, Store), (p, Unlock)]);
    OneStep(one, p, Recheck, [(p, Dial(dialOk)), (p, Store), (p, Unlock)]);
    OneStep(two, p, Dial(dialOk), [(p, Store), (p, Unlock)]);
    OneStep(three, p, Store, [(p, Unlock)]);
    OneStep(four, p, Unlock, []);
  }

  lemma NothingToCreate(s: State, p: nat, dialOk: bool)
    requires Free(s, p)
    ensures Execute(s, Create(p, dialOk)) == s
  {
    CreateSteps(s, p, dialOk);
  }

  lemma CreateAlone(s: State, p: nat, address: string, dialOk: bool)
    requires p < |s.procs| && s.procs[p] == Missed(address) && s.writer.None? && s.readers == {} && address !in s.idx
    ensures var conn := if dialOk then Some(|s.dialed|) else None;
            Execute(s, Create(p, dialOk))
            == s.(idx := if dialOk then s.idx[address := |s.dialed|] else s.idx,
                  dialed := if dialOk then s.dialed + [address] else s.dialed,
                  procs := s.procs[p := Idle],
                  history := s.history + [Event(address, conn)],
                  returned := s.returned + [Event(address, conn)])
  {
    var one := Step(s, p, Lock);
    var two := Step(one, p, Recheck);
    var three := Step(two, p, Dial(dialOk));
    var four := Step(three, p, Store);
    CreateSteps(s, p, dialOk);
    assert two == s.(writer := Some(p), procs := s.procs[p := Dialing(address)]);
    assert four.procs == s.procs[p := Leaving(address, if dialOk then Some(|s.dialed|) else None)];
    assert Step(four, p, Unlock).procs == s.procs[p := Idle];
  }

  lemma LeavingWaits(s: State, p: nat, dialOk: bool)
    requires p < |s.procs| && s.procs[p].Leaving?
    ensures Step(s, p, Dial(dialOk)) == s && Step(s, p, Store) == s
  {
  }

  lemma LoserLeaves(s: State, p: nat, address: string)
    requires p < |s.procs| && s.procs[p] == Missed(address) && s.writer.None? && s.readers == {} && address in s.idx
    ensures var conn := Some(s.idx[address]);
            Step(Step(s, p, Lock), p, Recheck)
            == s.(writer := Some(p), procs := s.procs[p := Leaving(address, conn)], history := s.history + [Event(address, conn)])
  {
    assert Step(s, p, Lock) == s.(writer := Some(p), procs := s.procs[p := Locked(address)]);
  }

  /** A caller that lost the race: the connection made meanwhile is returned, and none is created. */
  lemma LoserReturnsTheConnection(s: State, p: nat, address: string, dialOk: bool)
    requires p < |s.procs| && s.procs[p] == Missed(address) && s.writer.None? && s.readers == {} && address in s.idx
    ensures var e := Event(address, Some(s.idx[address]));
            Execute(s, Create(p, dialOk))
            == s.(procs := s.procs[p := Idle], history := s.history + [e], returned := s.returned + [e])
  {
    var two := Step(Step(s, p, Lock), p, Recheck);
    CreateSteps(s, p, dialOk);
    LoserLeaves(s, p, address);
    LeavingWaits(two, p, dialOk);
    assert two.procs[p := Idle] == s.procs[p := Idle];
  }

  /** The Close calls of a `Stop` in some order of the addresses; `oks` tells which succeed. */
  function Closing(p: nat, order: seq<string>, oks: string -> bool): Schedule {
    if order == [] then [] else [(p, CloseOne(order[0], oks(order[0])))] + Closing(p, order[1..], oks)
  }

  function Closes(idx: map<string, nat>, order: seq<string>, oks: string -> bool): (closes: seq<Close>)
    requires forall a :: a in order ==> a in idx
    ensures |closes| == |order|
    ensures forall i :: 0 <= i < |order| ==> closes[i] == Close(idx[order[i]], oks(order[i]))
  {
    seq(|order|, i requires 0 <= i < |order| => assert order[i] in order; Close(idx[order[i]], oks(order[i])))
  }

  predicate Distinct(order: seq<string>) {
    forall i, j :: 0 <= i < j < |order| ==> order[i] != order[j]
  }

  function Members(order: seq<string>): set<string> {
    set a | a in order
  }

  /** What `Stop` has done after some Close calls. */
  function Closed(s: State, p: nat, todo: set<string>, closes: seq<Close>, failed: bool): State
    requires p < |s.procs|
  {
    s.(writer := Some(p), procs := s.procs[p := Stopping(todo, closes, failed)])
  }

  lemma CloseStep(s: State, p: nat, todo: set<string>, closes: seq<Close>, failed: bool, a: string, ok: bool)
    requires p < |s.procs| && a in todo && a in s.idx
    ensures Step(Closed(s, p, todo, closes, failed), p, CloseOne(a, ok))
            == Closed(s, p, todo - {a}, closes + [Close(s.idx[a], ok)], failed || !ok)
  {
  }

  predicate AnyFails(order: seq<string>, oks: string -> bool) {
    exists a :: a in order && !oks(a)
  }

  lemma ClosesSplit(idx: map<string, nat>, order: seq<string>, oks: string -> bool)
    requires order != [] && Distinct(order) && forall a :: a in order ==> a in idx
    ensures Members(order) - {order[0]} == Members(order[1..])
    ensures Closes(idx, order, oks) == [Close(idx[order[0]], oks(order[0]))] + Closes(idx, order[1..], oks)
    ensures AnyFails(order, oks) <==> !oks(order[0]) || AnyFails(order[1..], oks)
  {
    assert forall b :: b in order <==> b == order[0] || b in order[1..];
  }

  lemma FirstClose(s: State, p: nat, order: seq<string>, oks: string -> bool, closes: seq<Close>, failed: bool)
    requires p < |s.procs| && order != []
    requires Distinct(order) && forall a :: a in order ==> a in s.idx
    ensures order[0] in s.idx && forall a :: a in order[1..] ==> a in s.idx
    ensures Execute(Closed(s, p, Members(order), closes, failed), Closing(p, order, oks))
            == Execute(Closed(s, p, Members(order[1..]), closes + [Close(s.idx[order[0]], oks(order[0]))], failed || !oks(order[0])),
                       Closing(p, order[1..], oks))
  {
    var a := order[0];
    assert a in order;
    OneStep(Closed(s, p, Members(order), closes, failed), p, CloseOne(a, oks(a)), Closing(p, order[1..], oks));
    CloseStep(s, p, Members(order), closes, failed, a, oks(a));
    ClosesSplit(s.idx, order, oks);
  }

  lemma {:induction false} ClosingAlone(s: State, p: nat, order: seq<string>, oks: string -> bool, closes: seq<Close>, failed: bool)
    requires p < |s.procs|
    requires Distinct(order) && forall a :: a in order ==> a in s.idx
    ensures Execute(Closed(s, p, Members(order), closes, failed), Closing(p, order, oks))
            == Closed(s, p, {}, closes + Closes(s.idx, order, oks), failed || AnyFails(order, oks))
    decreases |order|
  {
    if order == [] {
      assert Members(order) == {};
      assert closes + Closes(s.idx, order, oks) == closes;
    } else {
      var a, rest := order[0], order[1..];
      var close := Close(s.idx[a], oks(a));
      FirstClose(s, p, order, oks, closes, failed);
      ClosingAlone(s, p, rest, oks, closes + [close], failed || !oks(a));
      ClosesSplit(s.idx, order, oks);
      assert closes + [close] + Closes(s.idx, rest, oks) == closes + ([close] + Closes(s.idx, rest, oks));
    }
  }

  lemma StopEnds(s: State, p: nat, closes: seq<Close>, failed: bool)
    requires Free(s, p)
    ensures Execute(Closed(s, p, {}, closes, failed), [(p, UnlockStopped)])
            == s.(stops := s.stops + [Stopped(closes, |s.dialed|, !failed)])
  {
    var closed := Closed(s, p, {}, closes, failed);
    OneStep(closed, p, UnlockStopped, []);
    assert [(p, UnlockStopped)] + [] == [(p, UnlockStopped)];
    assert s.procs[p := Idle] == s.procs;
    assert Step(closed, p, UnlockStopped) == s.(stops := s.stops + [Stopped(closes, |s.dialed|, !failed)]);
  }

  lemma StopBegins(s: State, p: nat, rest: Schedule)
    requires Free(s, p)
    ensures Execute(s, [(p, LockToStop)] + rest) == Execute(Closed(s, p, s.idx.Keys, [], false), rest)
  {
    OneStep(s, p, LockToStop, rest);
    assert Step(s, p, LockToStop) == Closed(s, p, s.idx.Keys, [], false);
  }

  lemma AllMembers(order: seq<string>, idx: map<string, nat>)
    requires Members(order) == idx.Keys
    ensures forall a :: a in order ==> a in idx
  {
    forall a | a in order ensures a in idx {
      assert a in Members(order);
    }
  }

  function StopAlone(p: nat, order: seq<string>, oks: string -> bool): Schedule {
    [(p, LockToStop)] + Closing(p, order, oks) + [(p, UnlockStopped)]
  }

  /** An undisturbed `Stop` closes each cached connection once, whatever fails, finishes and lets go of the lock. */
  lemma UndisturbedStop(s: State, p: nat, order: seq<string>, oks: string -> bool)
    requires Free(s, p) && Distinct(order) && Members(order) == s.idx.Keys
    ensures forall a :: a in order ==> a in s.idx
    ensures Execute(s, StopAlone(p, order, oks))
            == s.(stops := s.stops + [Stopped(Closes(s.idx, order, oks), |s.dialed|, !AnyFails(order, oks))])
  {
    AllMembers(order, s.idx);
    var closes := Closes(s.idx, order, oks);
    ExecuteAppends(s, [(p, LockToStop)] + Closing(p, order, oks), [(p, UnlockStopped)]);
    StopBegins(s, p, Closing(p, order, oks));
    ClosingAlone(s, p, order, oks, [], false);
    assert [] + closes == closes;
    StopEnds(s, p, closes, AnyFails(order, oks));
  }

  /**
   The object and the protocol side by side: a `Get` on the object and an undisturbed one
   in the protocol, on equal caches, return the same connection and leave equal caches.
   */
  method GetBoth(manager: M.Manager, s: State, p: nat, address: string, dialOk: bool) returns (conn: Option<nat>)
    requires manager.Valid() && Free(s, p)
    requires manager.idx == s.idx && manager.dialed == s.dialed
    modifies manager
    ensures manager.Valid()
    ensures var end := Execute(s, Alone(p, address, dialOk));
            && manager.idx == end.idx && manager.dialed == end.dialed
            && end.returned == s.returned + [Event(address, conn)] && Free(end, p)
  {
    UndisturbedGet(s, p, address, dialOk);
    conn := manager.Get(address, !dialOk);
  }
}
