/**
 Linearisability of the connection cache. Beside the protocol an observer notes for each
 `Get` when it began, which event of the history is its own, and when it returned.
 */
module ConnHistory {
  import opened Common
  import opened ConnProtocol

  /** A call under way: how many calls had returned and how long the history was when it began. */
  datatype Ticket = Ticket(after: nat, start: nat, at: Option<nat>)

  /** A finished call: its event is `history[at]`, which was appended between start and end. */
  datatype Span = Span(event: Event, after: nat, start: nat, at: nat, end: nat)

  datatype Observed = Observed(s: State, tickets: seq<Ticket>, spans: seq<Span>)

  function Watch(callers: nat): Observed {
    Observed(Initial(callers), seq(callers, _ => Ticket(0, 0, None)), [])
  }

  /** What the observer notes when caller p makes a step to s'. */
  function Note(t: Observed, p: nat, s': State): (t': Observed)
    requires p < |t.s.procs| == |t.tickets| == |s'.procs|
    ensures t'.s == s' && |t'.tickets| == |t.tickets|
  {
    var s, ticket := t.s, t.tickets[p];
    if s.procs[p].Idle? && s'.procs[p].Reading? then
      Observed(s', t.tickets[p := Ticket(|t.spans|, |s.history|, None)], t.spans)
    else if |s.history| < |s'.history| then
      Observed(s', t.tickets[p := ticket.(at := Some(|s.history|))], t.spans)
    else if |s.returned| < |s'.returned| && ticket.at.Some? then
      var span := Span(s'.returned[|s.returned|], ticket.after, ticket.start, ticket.at.value, |s.history|);
      Observed(s', t.tickets[p := ticket.(at := None)], t.spans + [span])
    else Observed(s', t.tickets, t.spans)
  }

  /** The observer follows the protocol and never influences it. */
  function Observe(t: Observed, p: nat, action: Action): (t': Observed)
    requires p < |t.s.procs| == |t.tickets|
    ensures t'.s == Step(t.s, p, action) && |t'.s.procs| == |t'.tickets|
  {
    Note(t, p, Step(t.s, p, action))
  }

  function ObserveAll(t: Observed, schedule: Schedule): (t': Observed)
    requires |t.s.procs| == |t.tickets|
    ensures t'.s == Execute(t.s, schedule)
    decreases |schedule|
  {
    if schedule == [] then t
    else
      var (p, action) := schedule[0];
      ObserveAll(if p < |t.s.procs| then Observe(t, p, action) else t, schedule[1..])
  }

  /** The result a caller has obtained but not returned yet. */
  function Answer(pc: Pc): Option<Event> {
    match pc
    case ReadDone(a, Some(c)) => Some(Event(a, Some(c)))
    case Hit(a, c) => Some(Event(a, Some(c)))
    case Leaving(a, result) => Some(Event(a, result))
    case _ => None
  }

  predicate InGet(pc: Pc) {
    !pc.Idle? && !pc.Stopping?
  }

  /** Every step begins a call, linearises one, returns from one, or does none of these. */
  datatype Kind = Begins | Linearises(e: Event) | Returns(e: Event) | Silent

  ghost predicate IsKind(s: State, p: nat, s': State, kind: Kind)
    requires p < |s.procs| == |s'.procs|
  {
    && (forall q :: 0 <= q < |s.procs| && q != p ==> s'.procs[q] == s.procs[q])
    && s'.history == (if kind.Linearises? then s.history + [kind.e] else s.history)
    && s'.returned == (if kind.Returns? then s.returned + [kind.e] else s.returned)
    && (kind.Begins? <==> s.procs[p].Idle? && s'.procs[p].Reading?)
    && (InGet(s'.procs[p]) ==> kind.Begins? || InGet(s.procs[p]))
    && match kind
       case Linearises(e) => InGet(s.procs[p]) && Answer(s.procs[p]).None? && Answer(s'.procs[p]) == Some(e)
       case Returns(e) => InGet(s.procs[p]) && Answer(s.procs[p]) == Some(e) && !InGet(s'.procs[p])
       case _ => Answer(s'.procs[p]) == Answer(s.procs[p])
  }

  lemma EveryStepHasAKind(s: State, p: nat, action: Action)
    requires p < |s.procs|
    ensures exists kind :: IsKind(s, p, Step(s, p, action), kind)
  {
    var pc, s' := s.procs[p], Step(s, p, action);
    var kind := if pc.Idle? && s'.procs[p].Reading? then Begins
                else if |s.history| < |s'.history| then Linearises(s'.history[|s.history|])
                else if |s.returned| < |s'.returned| then Returns(s'.returned[|s.returned|])
                else Silent;
    assert IsKind(s, p, s', kind);
  }

  /** The event of a finished call was appended while the call ran, and is its result. */
  ghost predicate SpanOK(history: seq<Event>, span: Span) {
    span.start <= span.at < span.end <= |history| && history[span.at] == span.event
  }

  /** What a call that begins with this ticket knows of the calls that returned before. */
  ghost predicate Begun(spans: seq<Span>, after: nat, start: nat) {
    after <= |spans| && forall i :: 0 <= i < after ==> spans[i].end <= start
  }

  ghost predicate SpansInv(history: seq<Event>, returned: seq<Event>, spans: seq<Span>) {
    && |spans| == |returned|
    && (forall i :: 0 <= i < |spans| ==> spans[i].event == returned[i] && SpanOK(history, spans[i]))
    && (forall i :: 0 <= i < |spans| ==> spans[i].after <= i && Begun(spans, spans[i].after, spans[i].start))
    && (forall i, j :: 0 <= i < j < |spans| ==> spans[i].at != spans[j].at)
  }

  ghost predicate TicketInv(history: seq<Event>, spans: seq<Span>, pc: Pc, ticket: Ticket) {
    && (ticket.at.Some? <==> Answer(pc).Some?)
    && (InGet(pc) ==> ticket.start <= |history| && Begun(spans, ticket.after, ticket.start))
    && (ticket.at.Some? ==>
          && InGet(pc) && ticket.start <= ticket.at.value < |history|
          && Some(history[ticket.at.value]) == Answer(pc)
          && forall i :: 0 <= i < |spans| ==> spans[i].at != ticket.at.value)
  }

  ghost predicate TicketsInv(history: seq<Event>, spans: seq<Span>, procs: seq<Pc>, tickets: seq<Ticket>) {
    && |tickets| == |procs|
    && forall p :: 0 <= p < |tickets| ==> TicketInv(history, spans, procs[p], tickets[p])
  }

  ghost predicate NoSharedEvent(tickets: seq<Ticket>) {
    forall p, q :: 0 <= p < q < |tickets| && tickets[p].at.Some? ==> tickets[p].at != tickets[q].at
  }

  /** Event k belongs to a finished call or to one that is about to return. */
  ghost predicate Owned(spans: seq<Span>, tickets: seq<Ticket>, k: nat) {
    || (exists i :: 0 <= i < |spans| && spans[i].at == k)
    || (exists p :: 0 <= p < |tickets| && tickets[p].at == Some(k))
  }

  ghost predicate AllOwned(events: nat, spans: seq<Span>, tickets: seq<Ticket>) {
    forall k :: 0 <= k < events ==> Owned(spans, tickets, k)
  }

  /** No event belongs both to a finished call and to one that is about to return. */
  ghost predicate Disjoint(spans: seq<Span>, tickets: seq<Ticket>) {
    forall p, i :: 0 <= p < |tickets| && 0 <= i < |spans| ==> tickets[p].at != Some(spans[i].at)
  }

  ghost predicate Watched(t: Observed) {
    && SpansInv(t.s.history, t.s.returned, t.spans)
    && TicketsInv(t.s.history, t.spans, t.s.procs, t.tickets)
    && NoSharedEvent(t.tickets)
    && AllOwned(|t.s.history|, t.spans, t.tickets)
  }

  /** Only p moves on. */
  ghost predicate OnlyMoves(procs: seq<Pc>, procs': seq<Pc>, p: nat) {
    p < |procs| == |procs'| && forall q :: 0 <= q < |procs| && q != p ==> procs'[q] == procs[q]
  }

  /** A ticket that names the same event, or none, changes nothing for the others. */
  lemma SameEventTicket(events: nat, spans: seq<Span>, tickets: seq<Ticket>, p: nat, ticket: Ticket)
    requires p < |tickets| && ticket.at == tickets[p].at
    requires NoSharedEvent(tickets) && AllOwned(events, spans, tickets)
    ensures NoSharedEvent(tickets[p := ticket]) && AllOwned(events, spans, tickets[p := ticket])
  {
    var tickets' := tickets[p := ticket];
    forall k | 0 <= k < events
      ensures Owned(spans, tickets', k)
    {
      assert Owned(spans, tickets, k);
      if q :| 0 <= q < |tickets| && tickets[q].at == Some(k) {
        assert tickets'[q].at == Some(k);
      }
    }
  }

  lemma QuietStep(t: Observed, p: nat, s': State, kind: Kind)
    requires p < |t.tickets| == |s'.procs| && Watched(t)
    requires IsKind(t.s, p, s', kind) && (kind.Begins? || kind.Silent?)
    ensures Watched(Note(t, p, s'))
  {
    assert TicketInv(t.s.history, t.spans, t.s.procs[p], t.tickets[p]);
    SameEventTicket(|t.s.history|, t.spans, t.tickets, p, Ticket(|t.spans|, |t.s.history|, t.tickets[p].at));
  }

  lemma SpansStay(history: seq<Event>, e: Event, returned: seq<Event>, spans: seq<Span>)
    requires SpansInv(history, returned, spans)
    ensures SpansInv(history + [e], returned, spans)
  {
    forall i | 0 <= i < |spans|
      ensures SpanOK(history + [e], spans[i])
    {
      assert SpanOK(history, spans[i]);
    }
  }

  lemma LinearisedTickets(history: seq<Event>, e: Event, spans: seq<Span>, procs: seq<Pc>, procs': seq<Pc>, tickets: seq<Ticket>, p: nat)
    requires TicketsInv(history, spans, procs, tickets) && OnlyMoves(procs, procs', p)
    requires forall i :: 0 <= i < |spans| ==> SpanOK(history, spans[i])
    requires InGet(procs[p]) && Answer(procs'[p]) == Some(e)
    ensures TicketsInv(history + [e], spans, procs', tickets[p := tickets[p].(at := Some(|history|))])
  {
    var tickets' := tickets[p := tickets[p].(at := Some(|history|))];
    forall q | 0 <= q < |tickets|
      ensures TicketInv(history + [e], spans, procs'[q], tickets'[q])
    {
      assert TicketInv(history, spans, procs[q], tickets[q]);
    }
  }

  lemma LinearisedEvents(history: seq<Event>, spans: seq<Span>, procs: seq<Pc>, tickets: seq<Ticket>, p: nat)
    requires TicketsInv(history, spans, procs, tickets) && p < |tickets| && tickets[p].at.None?
    requires NoSharedEvent(tickets) && AllOwned(|history|, spans, tickets)
    ensures var tickets' := tickets[p := tickets[p].(at := Some(|history|))];
            NoSharedEvent(tickets') && AllOwned(|history| + 1, spans, tickets')
  {
    var tickets' := tickets[p := tickets[p].(at := Some(|history|))];
    forall q | 0 <= q < |tickets|
      ensures tickets[q].at != Some(|history|)
    {
      assert TicketInv(history, spans, procs[q], tickets[q]);
    }
    forall k | 0 <= k < |history| + 1
      ensures Owned(spans, tickets', k)
    {
      assert tickets'[p].at == Some(|history|);
      if k < |history| {
        assert Owned(spans, tickets, k);
        if q :| 0 <= q < |tickets| && tickets[q].at == Some(k) {
          assert tickets'[q].at == Some(k);
        }
      }
    }
  }

  lemma LinearisingStep(t: Observed, p: nat, s': State, kind: Kind)
    requires p < |t.tickets| == |s'.procs| && Watched(t)
    requires IsKind(t.s, p, s', kind) && kind.Linearises?
    ensures Watched(Note(t, p, s'))
  {
    assert TicketInv(t.s.history, t.spans, t.s.procs[p], t.tickets[p]);
    SpansStay(t.s.history, kind.e, t.s.returned, t.spans);
    LinearisedTickets(t.s.history, kind.e, t.spans, t.s.procs, s'.procs, t.tickets, p);
    LinearisedEvents(t.s.history, t.spans, t.s.procs, t.tickets, p);
  }

  /** A finished call joins the others. */
  lemma SpanAdded(history: seq<Event>, returned: seq<Event>, spans: seq<Span>, pc: Pc, ticket: Ticket, span: Span)
    requires SpansInv(history, returned, spans) && TicketInv(history, spans, pc, ticket) && Answer(pc) == Some(span.event)
    requires span == Span(span.event, ticket.after, ticket.start, ticket.at.value, |history|)
    ensures SpansInv(history, returned + [span.event], spans + [span])
  {
    assert SpanOK(history, span);
    var spans' := spans + [span];
    forall i | 0 <= i < |spans'|
      ensures spans'[i].after <= i && Begun(spans', spans'[i].after, spans'[i].start)
    {
      assert Begun(spans, spans'[i].after, spans'[i].start);
    }
  }

  lemma ReturnedTickets(history: seq<Event>, spans: seq<Span>, span: Span, procs: seq<Pc>, procs': seq<Pc>, tickets: seq<Ticket>, p: nat)
    requires TicketsInv(history, spans, procs, tickets) && NoSharedEvent(tickets) && OnlyMoves(procs, procs', p)
    requires tickets[p].at == Some(span.at) && !InGet(procs'[p])
    ensures TicketsInv(history, spans + [span], procs', tickets[p := tickets[p].(at := None)])
  {
    var tickets' := tickets[p := tickets[p].(at := None)];
    forall q | 0 <= q < |tickets|
      ensures TicketInv(history, spans + [span], procs'[q], tickets'[q])
    {
      assert TicketInv(history, spans, procs[q], tickets[q]);
      assert q != p ==> tickets[q].at != Some(span.at);
    }
  }

  lemma ReturnedEvents(events: nat, spans: seq<Span>, span: Span, tickets: seq<Ticket>, p: nat)
    requires p < |tickets| && tickets[p].at == Some(span.at)
    requires NoSharedEvent(tickets) && AllOwned(events, spans, tickets)
    ensures var tickets' := tickets[p := tickets[p].(at := None)];
            NoSharedEvent(tickets') && AllOwned(events, spans + [span], tickets')
  {
    var spans', tickets' := spans + [span], tickets[p := tickets[p].(at := None)];
    forall k | 0 <= k < events
      ensures Owned(spans', tickets', k)
    {
      assert Owned(spans, tickets, k) && spans'[|spans|].at == span.at;
      if q :| 0 <= q < |tickets| && tickets[q].at == Some(k) {
        assert q != p ==> tickets'[q].at == Some(k);
      } else {
        var i :| 0 <= i < |spans| && spans[i].at == k;
        assert spans'[i].at == k;
      }
    }
  }

  lemma ReturningStep(t: Observed, p: nat, s': State, kind: Kind)
    requires p < |t.tickets| == |s'.procs| && Watched(t)
    requires IsKind(t.s, p, s', kind) && kind.Returns?
    ensures Watched(Note(t, p, s'))
  {
    var ticket := t.tickets[p];
    assert TicketInv(t.s.history, t.spans, t.s.procs[p], ticket);
    var span := Span(kind.e, ticket.after, ticket.start, ticket.at.value, |t.s.history|);
    SpanAdded(t.s.history, t.s.returned, t.spans, t.s.procs[p], ticket, span);
    ReturnedTickets(t.s.history, t.spans, span, t.s.procs, s'.procs, t.tickets, p);
    ReturnedEvents(|t.s.history|, t.spans, span, t.tickets, p);
  }

  lemma ObserveKeepsWatched(t: Observed, p: nat, action: Action)
    requires p < |t.tickets| && Watched(t)
    ensures Watched(Observe(t, p, action))
  {
    EveryStepHasAKind(t.s, p, action);
    var s' := Step(t.s, p, action);
    var kind :| IsKind(t.s, p, s', kind);
    match kind
    case Linearises(_) => LinearisingStep(t, p, s', kind);
    case Returns(_) => ReturningStep(t, p, s', kind);
    case _ => QuietStep(t, p, s', kind);
  }

  lemma {:induction false} ObserveAllKeepsWatched(t: Observed, schedule: Schedule)
    requires Watched(t)
    ensures Watched(ObserveAll(t, schedule))
    decreases |schedule|
  {
    if schedule != [] {
      var (p, action) := schedule[0];
      if p < |t.s.procs| {
        ObserveKeepsWatched(t, p, action);
        ObserveAllKeepsWatched(Observe(t, p, action), schedule[1..]);
      } else {
        ObserveAllKeepsWatched(t, schedule[1..]);
      }
    }
  }

  /** Places in a history, all different. */
  ghost predicate Picks(places: seq<nat>, results: seq<Event>, history: seq<Event>) {
    && |places| == |results|
    && (forall i :: 0 <= i < |places| ==> places[i] < |history| && history[places[i]] == results[i])
    && (forall i, j :: 0 <= i < j < |places| ==> places[i] != places[j])
  }

  /** Without the pick of the last event, the others are picks from the events before it. */
  lemma PicksBefore(places: seq<nat>, results: seq<Event>, history: seq<Event>, i: nat)
    requires Picks(places, results, history) && i < |places| && places[i] + 1 == |history|
    ensures Picks(Without(places, i), Without(results, i), history[..places[i]])
  {
    var rest := Without(places, i);
    forall k | 0 <= k < |rest|
      ensures rest[k] < places[i] && history[rest[k]] == Without(results, i)[k]
    {
      assert rest[k] == if k < i then places[k] else places[k + 1];
    }
  }

  lemma {:induction false} PickedAtMostAsOften(places: seq<nat>, results: seq<Event>, history: seq<Event>)
    requires Picks(places, results, history)
    ensures multiset(results) <= multiset(history)
    decreases |history|
  {
    assert |places| > 0 ==> places[0] < |history|;
    if history == [] {
      assert results == [];
    } else {
      var n := |history| - 1;
      assert history == history[..n] + [history[n]];
      assert multiset(history) == multiset(history[..n]) + multiset{history[n]};
      if i :| 0 <= i < |places| && places[i] == n {
        WithoutMultiset(results, i);
        PicksBefore(places, results, history, i);
        PickedAtMostAsOften(Without(places, i), Without(results, i), history[..n]);
      } else {
        assert Picks(places, results, history[..n]);
        PickedAtMostAsOften(places, results, history[..n]);
      }
    }
  }

  /**
   `history` is a linearisation of the finished calls: each has an event of its own, which
   is its result and was appended between its begin and its return, and a call that had
   returned before another began comes before it.
   */
  ghost predicate IsLinearisation(history: seq<Event>, returned: seq<Event>, spans: seq<Span>) {
    && |spans| == |returned|
    && (forall i :: 0 <= i < |spans| ==> spans[i].event == returned[i] && SpanOK(history, spans[i]))
    && (forall i, j :: 0 <= i < j < |spans| ==> spans[i].at != spans[j].at)
    && (forall j :: 0 <= j < |spans| ==> spans[j].after <= j)
    && (forall i, j :: 0 <= j < |spans| && 0 <= i < spans[j].after ==> spans[i].at < spans[j].at)
  }

  lemma WatchedIsLinearised(t: Observed)
    requires Watched(t)
    ensures IsLinearisation(t.s.history, t.s.returned, t.spans)
    ensures multiset(t.s.returned) <= multiset(t.s.history)
  {
    var places: seq<nat> := seq(|t.spans|, i requires 0 <= i < |t.spans| => t.spans[i].at);
    assert Picks(places, t.s.returned, t.s.history);
    PickedAtMostAsOften(places, t.s.returned, t.s.history);
    forall i, j | 0 <= j < |t.spans| && 0 <= i < t.spans[j].after
      ensures t.spans[i].at < t.spans[j].at
    {
      assert Begun(t.spans, t.spans[j].after, t.spans[j].start);
    }
  }

  /**
   Every interleaving of any number of `Get` and `Stop` calls: at most one connection is
   ever created per address; every successful `Get` of an address returns that connection,
   so two results agree exactly when their addresses do; and the history is a run of an
   atomic memo table whose content is the cache.
   */
  lemma CacheIsAMemoTable(callers: nat, schedule: Schedule)
    ensures var s := Execute(Initial(callers), schedule);
            && (forall c, d :: 0 <= c < |s.dialed| && 0 <= d < |s.dialed| && s.dialed[c] == s.dialed[d] ==> c == d)
            && (forall e, f :: e in s.returned && f in s.returned && e.conn.Some? && f.conn.Some? ==>
                                 (e.address == f.address <==> e.conn == f.conn))
            && MemoRun(s.history) && Table(s.history) == s.idx
            && multiset(s.returned) <= multiset(s.history)
  {
    ExecuteKeepsInv(Initial(callers), schedule);
    ResultsAgree(Execute(Initial(callers), schedule));
    CallsAreLinearised(callers, schedule);
  }

  /**
   The history linearises the finished calls in their real-time order, and it holds nothing
   but the events of finished calls and of calls about to return, each once.
   */
  lemma CallsAreLinearised(callers: nat, schedule: Schedule)
    ensures var t := ObserveAll(Watch(callers), schedule);
            && t.s == Execute(Initial(callers), schedule)
            && IsLinearisation(t.s.history, t.s.returned, t.spans)
            && AllOwned(|t.s.history|, t.spans, t.tickets)
            && NoSharedEvent(t.tickets)
            && Disjoint(t.spans, t.tickets)
            && multiset(t.s.returned) <= multiset(t.s.history)
  {
    ObserveAllKeepsWatched(Watch(callers), schedule);
    var t := ObserveAll(Watch(callers), schedule);
    WatchedIsLinearised(t);
    forall p, i | 0 <= p < |t.tickets| && 0 <= i < |t.spans|
      ensures t.tickets[p].at != Some(t.spans[i].at)
    {
      assert TicketInv(t.s.history, t.spans, t.s.procs[p], t.tickets[p]);
    }
  }
}
