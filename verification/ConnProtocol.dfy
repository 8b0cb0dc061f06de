/** The connection cache under concurrent `Get` and `Stop` calls, lock step by lock step. */
module ConnProtocol {
  import opened Common

  /** One linearised `Get`: the connection it returns, or None if dialing failed. */
  datatype Event = Event(address: string, conn: Option<nat>)

  /** What `Stop` did between taking and releasing the lock. */
  datatype Close = Close(conn: nat, ok: bool)

  /** Where one caller stands. From Locked on it holds the write lock. */
  datatype Pc =
    | Idle
    | Reading(address: string)
    | ReadDone(address: string, found: Option<nat>)
    | Hit(address: string, conn: nat)
    | Missed(address: string)
    | Locked(address: string)
    | Dialing(address: string)
    | Dialed(address: string, conn: nat)
    | Leaving(address: string, result: Option<nat>)
    | Stopping(todo: set<string>, closes: seq<Close>, failed: bool)

  datatype Action =
    | RLock(address: string)
    | Lookup
    | RUnlock
    | ReturnHit
    | Lock
    | Recheck
    | Dial(ok: bool)
    | Store
    | Unlock
    | LockToStop
    | CloseOne(address: string, ok: bool)
    | UnlockStopped

  /** A finished `Stop`: its Close calls, how many connections existed, and whether it returned nil. */
  datatype Stopped = Stopped(closes: seq<Close>, created: nat, isNil: bool)

  /**
   `dialed[c]` is the address of the c-th connection ever created. `history` lists the
   linearised calls, `returned` the results handed out, `stops` the finished stops.
   */
  datatype State = State(
    idx: map<string, nat>,
    dialed: seq<string>,
    writer: Option<nat>,
    readers: set<nat>,
    procs: seq<Pc>,
    history: seq<Event>,
    returned: seq<Event>,
    stops: seq<Stopped>)

  function Initial(callers: nat): State {
    State(map[], [], None, {}, seq(callers, _ => Idle), [], [], [])
  }

  predicate HoldsWrite(pc: Pc) {
    pc.Locked? || pc.Dialing? || pc.Dialed? || pc.Leaving? || pc.Stopping?
  }

  predicate HoldsRead(pc: Pc) {
    pc.Reading? || pc.ReadDone?
  }

  /** One step of caller p; a step that is not its turn changes nothing. */
  function Step(s: State, p: nat, action: Action): (s': State)
    requires p < |s.procs|
    ensures |s'.procs| == |s.procs|
  {
    var pc := s.procs[p];
    match action
    case RLock(address) =>
      if pc.Idle? && s.writer.None? then
        s.(readers := s.readers + {p}, procs := s.procs[p := Reading(address)])
      else s
    case Lookup =>
      if !pc.Reading? then s
      else if pc.address in s.idx then
        s.(procs := s.procs[p := ReadDone(pc.address, Some(s.idx[pc.address]))],
           history := s.history + [Event(pc.address, Some(s.idx[pc.address]))])
      else s.(procs := s.procs[p := ReadDone(pc.address, None)])
    case RUnlock =>
      if !pc.ReadDone? then s
      else
        var next := if pc.found.Some? then Hit(pc.address, pc.found.value) else Missed(pc.address);
        s.(readers := s.readers - {p}, procs := s.procs[p := next])
    case ReturnHit =>
      if !pc.Hit? then s
      else s.(procs := s.procs[p := Idle], returned := s.returned + [Event(pc.address, Some(pc.conn))])
    case Lock =>
      if pc.Missed? && s.writer.None? && s.readers == {} then
        s.(writer := Some(p), procs := s.procs[p := Locked(pc.address)])
      else s
    case Recheck =>
      if !pc.Locked? then s
      else if pc.address in s.idx then
        s.(procs := s.procs[p := Leaving(pc.address, Some(s.idx[pc.address]))],
           history := s.history + [Event(pc.address, Some(s.idx[pc.address]))])
      else s.(procs := s.procs[p := Dialing(pc.address)])
    case Dial(ok) =>
      if !pc.Dialing? then s
      else if ok then
        s.(dialed := s.dialed + [pc.address], procs := s.procs[p := Dialed(pc.address, |s.dialed|)])
      else
        s.(procs := s.procs[p := Leaving(pc.address, None)], history := s.history + [Event(pc.address, None)])
    case Store =>
      if !pc.Dialed? then s
      else
        s.(idx := s.idx[pc.address := pc.conn],
           procs := s.procs[p := Leaving(pc.address, Some(pc.conn))],
           history := s.history + [Event(pc.address, Some(pc.conn))])
    case Unlock =>
      if !pc.Leaving? then s
      else
        s.(writer := None, procs := s.procs[p := Idle], returned := s.returned + [Event(pc.address, pc.result)])
    case LockToStop =>
      if pc.Idle? && s.writer.None? && s.readers == {} then
        s.(writer := Some(p), procs := s.procs[p := Stopping(s.idx.Keys, [], false)])
      else s
    case CloseOne(address, ok) =>
      if pc.Stopping? && address in pc.todo && address in s.idx then
        var next := Stopping(pc.todo - {address}, pc.closes + [Close(s.idx[address], ok)], pc.failed || !ok);
        s.(procs := s.procs[p := next])
      else s
    case UnlockStopped =>
      if pc.Stopping? && pc.todo == {} then
        s.(writer := None, procs := s.procs[p := Idle],
           stops := s.stops + [Stopped(pc.closes, |s.dialed|, !pc.failed)])
      else s
  }

  /** A memo table used by one caller at a time: the table after some calls. */
  function Table(history: seq<Event>): map<string, nat> {
    if history == [] then map[]
    else
      var before, e := Table(history[..|history| - 1]), history[|history| - 1];
      if e.conn.Some? then before[e.address := e.conn.value] else before
  }

  /** The table answers known addresses from memory and gives each new one a connection of its own. */
  ghost predicate MemoRun(history: seq<Event>) {
    history == [] ||
    var before, e := history[..|history| - 1], history[|history| - 1];
    && MemoRun(before)
    && (e.address in Table(before) ==> e.conn == Some(Table(before)[e.address]))
    && (e.address !in Table(before) && e.conn.Some? ==> e.conn.value !in Table(before).Values)
  }

  lemma TableAppend(history: seq<Event>, e: Event)
    ensures Table(history + [e]) == if e.conn.Some? then Table(history)[e.address := e.conn.value] else Table(history)
    ensures MemoRun(history + [e]) <==>
              && MemoRun(history)
              && (e.address in Table(history) ==> e.conn == Some(Table(history)[e.address]))
              && (e.address !in Table(history) && e.conn.Some? ==> e.conn.value !in Table(history).Values)
  {
    assert (history + [e])[..|history|] == history;
  }

  /** The cache knows connection c. */
  predicate Cached(idx: map<string, nat>, address: string, c: nat) {
    address in idx && idx[address] == c
  }

  ghost predicate PcInv(idx: map<string, nat>, dialed: seq<string>, history: seq<Event>, pc: Pc) {
    match pc
    case ReadDone(a, found) => found.Some? ==> Cached(idx, a, found.value) && Event(a, found) in history
    case Hit(a, c) => Cached(idx, a, c) && Event(a, Some(c)) in history
    case Dialing(a) => a !in idx
    case Dialed(a, c) => a !in idx && c + 1 == |dialed| && dialed[c] == a
    case Leaving(a, result) => (result.Some? ==> Cached(idx, a, result.value)) && Event(a, result) in history
    case Stopping(todo, closes, failed) => StopInv(idx, dialed, todo, closes, failed)
    case _ => true
  }

  /** Every cached connection is either still to be closed or closed exactly once. */
  ghost predicate StopInv(idx: map<string, nat>, dialed: seq<string>, todo: set<string>, closes: seq<Close>, failed: bool) {
    && todo <= idx.Keys
    && (forall i, j :: 0 <= i < j < |closes| ==> closes[i].conn != closes[j].conn)
    && (forall i :: 0 <= i < |closes| ==> closes[i].conn < |dialed| && dialed[closes[i].conn] !in todo)
    && (forall a :: a in idx && a !in todo ==> ClosedIn(closes, idx[a]))
    && (failed <==> exists i :: 0 <= i < |closes| && !closes[i].ok)
  }

  ghost predicate ClosedIn(closes: seq<Close>, c: nat) {
    exists i :: 0 <= i < |closes| && closes[i].conn == c
  }

  /** Every connection is cached under its address, except one that its creator is about to store. */
  ghost predicate CacheInv(s: State) {
    && (forall a :: a in s.idx ==> s.idx[a] < |s.dialed| && s.dialed[s.idx[a]] == a)
    && (forall c :: 0 <= c < |s.dialed| ==>
          || Cached(s.idx, s.dialed[c], c)
          || (s.writer.Some? && s.writer.value < |s.procs| && s.procs[s.writer.value] == Dialed(s.dialed[c], c)))
  }

  /** At most one writer, and no reader beside it. */
  ghost predicate LockInv(s: State) {
    && (forall p :: 0 <= p < |s.procs| ==> (HoldsWrite(s.procs[p]) <==> s.writer == Some(p)))
    && (forall p :: 0 <= p < |s.procs| ==> (HoldsRead(s.procs[p]) <==> p in s.readers))
    && (s.writer.Some? ==> s.writer.value < |s.procs| && s.readers == {})
    && (forall p :: p in s.readers ==> p < |s.procs|)
  }

  ghost predicate CompleteStop(stop: Stopped) {
    && (forall i, j :: 0 <= i < j < |stop.closes| ==> stop.closes[i].conn != stop.closes[j].conn)
    && (forall i :: 0 <= i < |stop.closes| ==> stop.closes[i].conn < stop.created)
    && (forall c :: 0 <= c < stop.created ==> ClosedIn(stop.closes, c))
    && (stop.isNil <==> forall i :: 0 <= i < |stop.closes| ==> stop.closes[i].ok)
  }

  ghost predicate LogInv(s: State) {
    && MemoRun(s.history) && Table(s.history) == s.idx
    && (forall e :: e in s.returned ==> e in s.history && (e.conn.Some? ==> Cached(s.idx, e.address, e.conn.value)))
    && (forall i :: 0 <= i < |s.stops| ==> CompleteStop(s.stops[i]))
  }

  ghost predicate Inv(s: State) {
    && LockInv(s)
    && CacheInv(s)
    && LogInv(s)
    && forall p :: 0 <= p < |s.procs| ==> PcInv(s.idx, s.dialed, s.history, s.procs[p])
  }

  /** Connections are never removed or replaced. */
  predicate Extends(idx: map<string, nat>, idx': map<string, nat>) {
    forall a :: a in idx ==> a in idx' && idx'[a] == idx[a]
  }

  lemma ReaderUnaffected(idx: map<string, nat>, dialed: seq<string>, history: seq<Event>, pc: Pc,
                         idx': map<string, nat>, dialed': seq<string>, history': seq<Event>)
    requires PcInv(idx, dialed, history, pc) && !HoldsWrite(pc)
    requires Extends(idx, idx') && history <= history'
    ensures PcInv(idx', dialed', history', pc)
  {
  }

  lemma LockKept(s: State, p: nat, action: Action)
    requires p < |s.procs| && LockInv(s)
    ensures LockInv(Step(s, p, action))
  {
  }

  /** The cache changes only when a connection is stored under an address that had none. */
  lemma CacheGrows(s: State, p: nat, action: Action)
    requires p < |s.procs| && PcInv(s.idx, s.dialed, s.history, s.procs[p])
    ensures Extends(s.idx, Step(s, p, action).idx)
    ensures s.dialed <= Step(s, p, action).dialed && s.history <= Step(s, p, action).history
  {
  }

  lemma CacheKept(s: State, p: nat, action: Action)
    requires p < |s.procs| && Inv(s)
    ensures CacheInv(Step(s, p, action))
  {
    var pc := s.procs[p];
    assert PcInv(s.idx, s.dialed, s.history, pc);
    if pc.Dialed? || pc.Dialing? {
      assert s.writer == Some(p);
    } else {
      NoPendingConnection(s, p, action);
    }
  }

  /** A caller that is not creating a connection neither stores nor loses one. */
  lemma NoPendingConnection(s: State, p: nat, action: Action)
    requires p < |s.procs| && LockInv(s) && CacheInv(s) && !s.procs[p].Dialed? && !s.procs[p].Dialing?
    ensures CacheInv(Step(s, p, action))
  {
    var s' := Step(s, p, action);
    assert s'.idx == s.idx && s'.dialed == s.dialed;
    forall c | 0 <= c < |s.dialed| && !Cached(s.idx, s.dialed[c], c)
      ensures s'.writer == s.writer && s'.procs[s.writer.value] == Dialed(s.dialed[c], c)
    {
      assert s.writer.value != p && !HoldsWrite(s.procs[p]);
    }
  }

  lemma StopFinishes(s: State, p: nat)
    requires p < |s.procs| && Inv(s) && s.procs[p].Stopping? && s.procs[p].todo == {}
    ensures CompleteStop(Stopped(s.procs[p].closes, |s.dialed|, !s.procs[p].failed))
  {
    forall c | 0 <= c < |s.dialed|
      ensures ClosedIn(s.procs[p].closes, c)
    {
      assert s.writer == Some(p);
      assert Cached(s.idx, s.dialed[c], c);
    }
  }

  /** The table may answer from memory, fail on an unknown address, or learn a new one. */
  lemma MemoStep(history: seq<Event>, idx: map<string, nat>, e: Event, idx': map<string, nat>)
    requires MemoRun(history) && Table(history) == idx
    requires if e.address in idx then e.conn == Some(idx[e.address]) && idx' == idx
             else if e.conn.Some? then e.conn.value !in idx.Values && idx' == idx[e.address := e.conn.value]
             else idx' == idx
    ensures MemoRun(history + [e]) && Table(history + [e]) == idx'
  {
    TableAppend(history, e);
  }

  lemma HistoryKept(s: State, p: nat, action: Action)
    requires p < |s.procs| && Inv(s)
    ensures MemoRun(Step(s, p, action).history) && Table(Step(s, p, action).history) == Step(s, p, action).idx
  {
    var pc := s.procs[p];
    assert PcInv(s.idx, s.dialed, s.history, pc);
    if ((action.Lookup? && pc.Reading?) || (action.Recheck? && pc.Locked?)) && pc.address in s.idx {
      MemoStep(s.history, s.idx, Event(pc.address, Some(s.idx[pc.address])), s.idx);
    } else if action == Dial(false) && pc.Dialing? {
      MemoStep(s.history, s.idx, Event(pc.address, None), s.idx);
    } else if action.Store? && pc.Dialed? {
      NewConnectionIsUnknown(s, pc.address, pc.conn);
      MemoStep(s.history, s.idx, Event(pc.address, Some(pc.conn)), s.idx[pc.address := pc.conn]);
    } else {
      assert Step(s, p, action).history == s.history && Step(s, p, action).idx == s.idx;
    }
  }

  lemma NewConnectionIsUnknown(s: State, address: string, c: nat)
    requires CacheInv(s) && address !in s.idx && c < |s.dialed| && s.dialed[c] == address
    ensures c !in s.idx.Values
  {
  }

  lemma ReturnedKept(s: State, p: nat, action: Action)
    requires p < |s.procs| && Inv(s)
    ensures var s' := Step(s, p, action);
            forall e :: e in s'.returned ==> e in s'.history && (e.conn.Some? ==> Cached(s'.idx, e.address, e.conn.value))
  {
    var s' := Step(s, p, action);
    assert PcInv(s.idx, s.dialed, s.history, s.procs[p]);
    CacheGrows(s, p, action);
    forall e | e in s'.returned
      ensures e in s'.history && (e.conn.Some? ==> Cached(s'.idx, e.address, e.conn.value))
    {
      if e in s.returned {
        assert e in s.history;
      }
    }
  }

  lemma LogKept(s: State, p: nat, action: Action)
    requires p < |s.procs| && Inv(s)
    ensures LogInv(Step(s, p, action))
  {
    HistoryKept(s, p, action);
    ReturnedKept(s, p, action);
    if s.procs[p].Stopping? && s.procs[p].todo == {} {
      StopFinishes(s, p);
    }
  }

  lemma OwnPcKept(s: State, p: nat, action: Action)
    requires p < |s.procs| && Inv(s)
    ensures var s' := Step(s, p, action);
            PcInv(s'.idx, s'.dialed, s'.history, s'.procs[p])
  {
    var pc := s.procs[p];
    if action.CloseOne? && pc.Stopping? && action.address in pc.todo {
      CloseKept(s.idx, s.dialed, pc, action.address, action.ok);
    }
  }

  lemma CloseKept(idx: map<string, nat>, dialed: seq<string>, pc: Pc, address: string, ok: bool)
    requires pc.Stopping? && StopInv(idx, dialed, pc.todo, pc.closes, pc.failed) && address in pc.todo
    requires idx[address] < |dialed| && dialed[idx[address]] == address
    ensures StopInv(idx, dialed, pc.todo - {address}, pc.closes + [Close(idx[address], ok)], pc.failed || !ok)
  {
    var closes := pc.closes + [Close(idx[address], ok)];
    assert closes[|pc.closes|] == Close(idx[address], ok);
    forall a | a in idx && a !in pc.todo - {address}
      ensures ClosedIn(closes, idx[a])
    {
      if a != address {
        var i :| 0 <= i < |pc.closes| && pc.closes[i].conn == idx[a];
        assert closes[i].conn == idx[a];
      }
    }
    assert forall i :: 0 <= i < |pc.closes| ==> closes[i] == pc.closes[i];
  }

  lemma StepKeepsInv(s: State, p: nat, action: Action)
    requires p < |s.procs| && Inv(s)
    ensures Inv(Step(s, p, action))
  {
    var s' := Step(s, p, action);
    LockKept(s, p, action);
    CacheKept(s, p, action);
    LogKept(s, p, action);
    forall q | 0 <= q < |s'.procs|
      ensures PcInv(s'.idx, s'.dialed, s'.history, s'.procs[q])
    {
      if q == p {
        OwnPcKept(s, p, action);
      } else {
        OthersKept(s, p, action, q);
      }
    }
  }

  lemma OthersKept(s: State, p: nat, action: Action, q: nat)
    requires p < |s.procs| && q < |s.procs| && q != p && Inv(s)
    ensures var s' := Step(s, p, action);
            PcInv(s'.idx, s'.dialed, s'.history, s'.procs[q])
  {
    var s' := Step(s, p, action);
    if HoldsWrite(s.procs[q]) {
      assert !HoldsWrite(s.procs[p]);
    } else {
      CacheGrows(s, p, action);
      ReaderUnaffected(s.idx, s.dialed, s.history, s.procs[q], s'.idx, s'.dialed, s'.history);
    }
  }

  type Schedule = seq<(nat, Action)>

  function Execute(s: State, schedule: Schedule): State
    decreases |schedule|
  {
    if schedule == [] then s
    else
      var (p, action) := schedule[0];
      Execute(if p < |s.procs| then Step(s, p, action) else s, schedule[1..])
  }

  lemma {:induction false} ExecuteKeepsInv(s: State, schedule: Schedule)
    requires Inv(s)
    ensures Inv(Execute(s, schedule))
    decreases |schedule|
  {
    if schedule != [] {
      var (p, action) := schedule[0];
      if p < |s.procs| {
        StepKeepsInv(s, p, action);
        ExecuteKeepsInv(Step(s, p, action), schedule[1..]);
      } else {
        ExecuteKeepsInv(s, schedule[1..]);
      }
    }
  }

  /** Two connections for one address would both have to be the one their creator is about to store. */
  lemma OneConnectionPerAddress(s: State, c: nat, d: nat)
    requires Inv(s) && c < |s.dialed| && d < |s.dialed| && s.dialed[c] == s.dialed[d]
    ensures c == d
  {
    if s.writer.Some? {
      assert PcInv(s.idx, s.dialed, s.history, s.procs[s.writer.value]);
    }
  }

  /** Each successful `Get` of an address returns its one connection. */
  lemma ResultsAgree(s: State)
    requires Inv(s)
    ensures forall c, d :: 0 <= c < |s.dialed| && 0 <= d < |s.dialed| && s.dialed[c] == s.dialed[d] ==> c == d
    ensures forall e, f :: e in s.returned && f in s.returned && e.conn.Some? && f.conn.Some? ==>
                             (e.address == f.address <==> e.conn == f.conn)
  {
    forall c, d | 0 <= c < |s.dialed| && 0 <= d < |s.dialed| && s.dialed[c] == s.dialed[d]
      ensures c == d
    {
      OneConnectionPerAddress(s, c, d);
    }
  }

  /**
   Under every interleaving, a `Stop` that has released the lock has called Close exactly
   once on each connection created until then, and returned nil exactly if all succeeded.
   */
  lemma StopClosesEverythingOnce(callers: nat, schedule: Schedule)
    ensures var s := Execute(Initial(callers), schedule);
            forall i :: 0 <= i < |s.stops| ==> CompleteStop(s.stops[i])
  {
    ExecuteKeepsInv(Initial(callers), schedule);
  }

  /** A connection handed out once is handed out for ever. */
  lemma {:induction false} WriteOnce(s: State, schedule: Schedule)
    requires Inv(s)
    ensures Extends(s.idx, Execute(s, schedule).idx)
    decreases |schedule|
  {
    if schedule != [] {
      var (p, action) := schedule[0];
      if p < |s.procs| {
        StepKeepsInv(s, p, action);
        CacheGrows(s, p, action);
        WriteOnce(Step(s, p, action), schedule[1..]);
      } else {
        WriteOnce(s, schedule[1..]);
      }
    }
  }
}
