/** How one trace id travels through a chain of server interceptors into the logs. */
module TraceIds {
  import opened Common
  import opened Interceptors

  /** A logger that carries the field otlp.trace_id. */
  datatype Logger = Logger(traceId: string)

  /** The context values that matter: the two keys of this package and the tracing span. */
  datatype Ctx = Ctx(traceId: Option<string>, span: Option<string>, logger: Option<Logger>)

  /** The trace id already present: the stored one unless empty, else that of the span. */
  function Existing(ctx: Ctx): Option<string> {
    if ctx.traceId.Some? && ctx.traceId.value != "" then ctx.traceId else ctx.span
  }

  /** What follows is an endless supply of fresh identifiers; `n` counts those used up. */
  type Supply = nat -> string

  function TraceIdFromContext(ctx: Ctx, ulids: Supply, n: nat): (r: (string, bool))
    ensures r.1 <==> Existing(ctx).Some?
    ensures r.1 ==> Some(r.0) == Existing(ctx)
    ensures !r.1 ==> r.0 != ""
  {
    match Existing(ctx)
    case Some(id) => (id, true)
    case None => ("local-" + ulids(n), false)
  }

  /**
   The order in which an id is looked for: a stored id that is not empty, then the tracing
   span, whatever the stored id if that is empty, and only then a fresh one.
   */
  lemma OrderOfSources(ctx: Ctx, ulids: Supply, n: nat)
    ensures TraceIdFromContext(ctx, ulids, n) ==
            match (ctx.traceId, ctx.span)
            case (Some(id), None) => if id != "" then (id, true) else ("local-" + ulids(n), false)
            case (Some(id), Some(spanId)) => if id != "" then (id, true) else (spanId, true)
            case (None, Some(spanId)) => (spanId, true)
            case (None, None) => ("local-" + ulids(n), false)
  {
  }

  /**
   A server interceptor. Any other interceptor passes on a context of its choice, or
   does not call the next one at all.
   */
  datatype Step =
    | Inject
    | Logging(logs: bool, logsStart: bool)
    | Other(change: Ctx -> Option<Ctx>)

  datatype Event =
    | Started(id: string)
    | Finished(id: string)
    | Handled(logger: Option<Logger>)

  /** The context that the inject-logger interceptor passes on. */
  function Injected(ctx: Ctx, ulids: Supply, n: nat): (next: Ctx)
    ensures exists id :: Carries(next, id)
    ensures next.span == ctx.span
    ensures Existing(ctx).Some? ==> next.traceId == ctx.traceId
  {
    var (id, present) := TraceIdFromContext(ctx, ulids, n);
    var named := if present then ctx else ctx.(traceId := Some(id));
    var next := named.(logger := Some(Logger(id)));
    assert Carries(next, id);
    next
  }

  /** The context identifies the request as `id` and holds a logger that says so. */
  predicate Carries(ctx: Ctx, id: string) {
    Existing(ctx) == Some(id) && ctx.logger == Some(Logger(id))
  }

  function Used(ctx: Ctx): nat {
    if Existing(ctx).Some? then 0 else 1
  }

  /** A whole unary call: what is logged and what the handler gets, and the supply left over. */
  function Call(chain: seq<Step>, ctx: Ctx, ulids: Supply, n: nat): (seq<Event>, nat) {
    if chain == [] then ([Handled(ctx.logger)], n)
    else
      match chain[0]
      case Inject =>
        Call(chain[1..], Injected(ctx, ulids, n), ulids, n + Used(ctx))
      case Logging(logs, logsStart) =>
        var starts := logs && logsStart;
        var first := if starts then [Started(TraceIdFromContext(ctx, ulids, n).0)] else [];
        var (inner, rest) := Call(chain[1..], ctx, ulids, if starts then n + Used(ctx) else n);
        var last := if logs then [Finished(TraceIdFromContext(ctx, ulids, rest).0)] else [];
        (first + inner + last, if logs then rest + Used(ctx) else rest)
      case Other(change) =>
        match change(ctx)
        case None => ([], n)
        case Some(next) => Call(chain[1..], next, ulids, n)
  }

  /** A server stream, whose context each interceptor replaces by wrapping it. */
  datatype Stream = Transport(ctx: Ctx) | Wrapped(ctx: Ctx, inner: Stream)

  /** A whole stream call: the same steps, each asking the stream for its context. */
  function CallStream(chain: seq<Step>, ss: Stream, ulids: Supply, n: nat): (seq<Event>, nat) {
    if chain == [] then ([Handled(ss.ctx.logger)], n)
    else
      match chain[0]
      case Inject =>
        CallStream(chain[1..], Wrapped(Injected(ss.ctx, ulids, n), ss), ulids, n + Used(ss.ctx))
      case Logging(logs, logsStart) =>
        var starts := logs && logsStart;
        var first := if starts then [Started(TraceIdFromContext(ss.ctx, ulids, n).0)] else [];
        var monitored := Wrapped(ss.ctx, ss);
        var (inner, rest) := CallStream(chain[1..], monitored, ulids, if starts then n + Used(ss.ctx) else n);
        var last := if logs then [Finished(TraceIdFromContext(ss.ctx, ulids, rest).0)] else [];
        (first + inner + last, if logs then rest + Used(ss.ctx) else rest)
      case Other(change) =>
        match change(ss.ctx)
        case None => ([], n)
        case Some(next) => CallStream(chain[1..], Wrapped(next, ss), ulids, n)
  }

  lemma {:induction false} StreamsLikeUnary(chain: seq<Step>, ss: Stream, ulids: Supply, n: nat)
    ensures CallStream(chain, ss, ulids, n) == Call(chain, ss.ctx, ulids, n)
    decreases |chain|
  {
    if chain != [] {
      match chain[0]
      case Inject =>
        StreamsLikeUnary(chain[1..], Wrapped(Injected(ss.ctx, ulids, n), ss), ulids, n + Used(ss.ctx));
      case Logging(logs, logsStart) =>
        StreamsLikeUnary(chain[1..], Wrapped(ss.ctx, ss), ulids, if logs && logsStart then n + Used(ss.ctx) else n);
      case Other(change) =>
        if change(ss.ctx).Some? {
          StreamsLikeUnary(chain[1..], Wrapped(change(ss.ctx).value, ss), ulids, n);
        }
    }
  }

  ghost predicate KeepsTraceId(step: Step) {
    step.Other? ==> forall ctx :: step.change(ctx).Some? ==> Existing(step.change(ctx).value) == Existing(ctx)
  }

  ghost predicate KeepsLogger(step: Step) {
    step.Other? ==> forall ctx :: step.change(ctx).Some? ==> step.change(ctx).value.logger == ctx.logger
  }

  predicate AllCarry(events: seq<Event>, id: string) {
    forall e :: e in events ==>
                  match e
                  case Started(i) => i == id
                  case Finished(i) => i == id
                  case Handled(logger) => logger == Some(Logger(id))
  }

  /** Behind the last logging interceptor only the logger matters. */
  lemma {:induction false} LoggerReachesHandler(chain: seq<Step>, ctx: Ctx, ulids: Supply, n: nat, id: string)
    requires forall i :: 0 <= i < |chain| ==> chain[i].Other? && KeepsLogger(chain[i])
    requires ctx.logger == Some(Logger(id))
    ensures AllCarry(Call(chain, ctx, ulids, n).0, id)
    decreases |chain|
  {
    if chain != [] && chain[0].change(ctx).Some? {
      assert KeepsLogger(chain[0]);
      LoggerReachesHandler(chain[1..], chain[0].change(ctx).value, ulids, n, id);
    }
  }

  const INJECT_WEIGHT := 49
  const LOGGING_WEIGHT := 50

  /** What the chain asks of an interceptor registered with this weight. */
  ghost predicate Cooperates(weight: int, step: Step) {
    && (step.Inject? ==> weight == INJECT_WEIGHT)
    && (step.Logging? ==> weight == LOGGING_WEIGHT)
    && (INJECT_WEIGHT <= weight <= LOGGING_WEIGHT ==> KeepsTraceId(step))
    && (INJECT_WEIGHT <= weight ==> KeepsLogger(step))
  }

  function Chain(front: seq<Item>, steps: int -> Step): (chain: seq<Step>)
    requires Nil !in front
    ensures |chain| == |front| && forall i :: 0 <= i < |front| ==> chain[i] == steps(front[i].id)
  {
    seq(|front|, i requires 0 <= i < |front| => assert front[i] in front; steps(front[i].id))
  }

  ghost predicate ChainOK(front: seq<Item>, steps: int -> Step) {
    && Nil !in front
    && Sorted(Keys(front, Weight))
    && forall i :: 0 <= i < |front| ==> Cooperates(Weight(front[i]), steps(front[i].id))
  }

  lemma ChainTail(front: seq<Item>, steps: int -> Step)
    requires front != [] && ChainOK(front, steps)
    ensures ChainOK(front[1..], steps)
    ensures Chain(front, steps)[1..] == Chain(front[1..], steps)
  {
    SortedTail(front);
    assert forall i :: 0 <= i < |front[1..]| ==> front[1..][i] == front[i + 1];
  }

  lemma SortedTail(front: seq<Item>)
    requires front != [] && Sorted(Keys(front, Weight))
    ensures Sorted(Keys(front[1..], Weight))
  {
    assert Keys(front[1..], Weight) == Keys(front, Weight)[1..];
    Tail(Keys(front, Weight));
  }

  lemma NothingLogsBehind(front: seq<Item>, steps: int -> Step)
    requires front != [] && ChainOK(front, steps) && Weight(front[0]) > LOGGING_WEIGHT
    ensures forall i :: 0 <= i < |front| ==> steps(front[i].id).Other? && KeepsLogger(steps(front[i].id))
  {
    forall i | 0 <= i < |front|
      ensures steps(front[i].id).Other? && KeepsLogger(steps(front[i].id))
    {
      assert Keys(front, Weight)[0] <= Keys(front, Weight)[i];
    }
  }

  /** From the inject-logger interceptor on, everything logged carries its id. */
  lemma {:induction false} OneIdFromInject(front: seq<Item>, steps: int -> Step, ctx: Ctx, ulids: Supply, n: nat, id: string)
    requires ChainOK(front, steps) && Carries(ctx, id)
    requires front != [] ==> INJECT_WEIGHT <= Weight(front[0])
    ensures AllCarry(Call(Chain(front, steps), ctx, ulids, n).0, id)
    decreases |front|
  {
    if front != [] {
      ChainTail(front, steps);
      assert |front| > 1 ==> Keys(front, Weight)[0] <= Keys(front, Weight)[1];
      var step := steps(front[0].id);
      if Weight(front[0]) > LOGGING_WEIGHT {
        NothingLogsBehind(front, steps);
        LoggerReachesHandler(Chain(front, steps), ctx, ulids, n, id);
      } else if step.Inject? {
        OneIdFromInject(front[1..], steps, Injected(ctx, ulids, n), ulids, n, id);
      } else if step.Logging? {
        OneIdFromInject(front[1..], steps, ctx, ulids, n, id);
      } else if step.change(ctx).Some? {
        OneIdFromInject(front[1..], steps, step.change(ctx).value, ulids, n, id);
      }
    }
  }

  /** Before the first inject-logger interceptor nothing is logged. */
  lemma {:induction false} OneIdBeforeInject(front: seq<Item>, steps: int -> Step, ctx: Ctx, ulids: Supply, n: nat)
    requires ChainOK(front, steps)
    requires exists i :: 0 <= i < |front| && steps(front[i].id).Inject?
    ensures exists id :: AllCarry(Call(Chain(front, steps), ctx, ulids, n).0, id)
    decreases |front|
  {
    var i :| 0 <= i < |front| && steps(front[i].id).Inject?;
    assert Keys(front, Weight)[0] <= Keys(front, Weight)[i];
    ChainTail(front, steps);
    var step := steps(front[0].id);
    if step.Inject? {
      var next := Injected(ctx, ulids, n);
      var id :| Carries(next, id);
      assert |front| > 1 ==> Keys(front, Weight)[0] <= Keys(front, Weight)[1];
      OneIdFromInject(front[1..], steps, next, ulids, n + Used(ctx), id);
      assert AllCarry(Call(Chain(front, steps), ctx, ulids, n).0, id);
    } else if step.Other? && step.change(ctx).Some? {
      assert front[1..][i - 1] == front[i];
      var next := step.change(ctx).value;
      OneIdBeforeInject(front[1..], steps, next, ulids, n);
      var id :| AllCarry(Call(Chain(front[1..], steps), next, ulids, n).0, id);
      assert AllCarry(Call(Chain(front, steps), ctx, ulids, n).0, id);
    } else {
      assert AllCarry(Call(Chain(front, steps), ctx, ulids, n).0, "");
    }
  }

  /**
   One trace id per call, unary or stream: for every order of registration without
   adjacent nils and every way the sort may place equal weights, if the interceptors
   around the two logging ones cooperate, then all start logs, all finish logs and the
   logger that the handler gets carry one id.
   */
  lemma OneTraceIdPerCall(list: seq<Item>, front: seq<Item>, steps: int -> Step, ctx: Ctx, ulids: Supply, n: nat)
    requires !AdjacentNils(list)
    requires multiset(front) == multiset(Kept(list, 0)) && Sorted(Keys(front, Weight))
    requires forall x :: x in list && x.Interceptor? ==> Cooperates(x.weight, steps(x.id))
    requires exists x :: x in list && x.Interceptor? && steps(x.id).Inject?
    ensures Nil !in front
    ensures exists id :: AllCarry(Call(Chain(front, steps), ctx, ulids, n).0, id) &&
                         AllCarry(CallStream(Chain(front, steps), Transport(ctx), ulids, n).0, id)
  {
    SurvivorsAreTheInterceptors(list, front);
    forall x
      ensures x in front <==> x in list && x.Interceptor?
    {
      InWithoutNils(list, x);
      assert x in front <==> x in multiset(front);
      assert x in WithoutNils(list) <==> x in multiset(WithoutNils(list));
    }
    var inject :| inject in list && inject.Interceptor? && steps(inject.id).Inject?;
    var i :| 0 <= i < |front| && front[i] == inject;
    forall k | 0 <= k < |front|
      ensures Cooperates(Weight(front[k]), steps(front[k].id))
    {
      assert front[k] in front;
    }
    OneIdBeforeInject(front, steps, ctx, ulids, n);
    StreamsLikeUnary(Chain(front, steps), Transport(ctx), ulids, n);
  }

  lemma {:induction false} InWithoutNils(list: seq<Item>, x: Item)
    ensures x in WithoutNils(list) <==> x in list && x.Interceptor?
  {
    if list != [] {
      InWithoutNils(list[1..], x);
      assert x in list <==> x == list[0] || x in list[1..];
    }
  }

  /** The two weights of this repository: injecting at 49 and logging at 50 cooperate. */
  lemma RegisteredWeightsCooperate(logs: bool, logsStart: bool)
    ensures Cooperates(49, Inject) && Cooperates(50, Logging(logs, logsStart))
  {
  }

  /** The plain server of this repository logs all three, in this order, with one id. */
  lemma DefaultServerLogs(ctx: Ctx, ulids: Supply, n: nat)
    ensures var id := TraceIdFromContext(ctx, ulids, n).0;
            Call([Inject, Logging(true, true)], ctx, ulids, n)
            == ([Started(id), Handled(Some(Logger(id))), Finished(id)], if Existing(ctx).Some? then n else n + 1)
  {
    var logging := [Logging(true, true)];
    var next := Injected(ctx, ulids, n);
    assert [Inject, Logging(true, true)][1..] == logging && logging[1..] == [];
    assert Call([], next, ulids, n + Used(ctx)) == ([Handled(next.logger)], n + Used(ctx));
    assert Call(logging, next, ulids, n + Used(ctx)).1 == n + Used(ctx);
    assert Call(logging, next, ulids, n + Used(ctx)).0
        == [Started(TraceIdFromContext(next, ulids, 0).0), Handled(next.logger), Finished(TraceIdFromContext(next, ulids, 0).0)];
  }

  /** The ids of the log lines of a call, in the order in which they are written. */
  function LogIds(events: seq<Event>): seq<string> {
    if events == [] then []
    else if events[0].Handled? then LogIds(events[1..])
    else [events[0].id] + LogIds(events[1..])
  }

  lemma {:induction false} LogIdsAppend(a: seq<Event>, b: seq<Event>)
    ensures LogIds(a + b) == LogIds(a) + LogIds(b)
  {
    if a == [] {
      assert a + b == b;
    } else {
      assert (a + b)[1..] == a[1..] + b;
      LogIdsAppend(a[1..], b);
    }
  }

  /** How many log lines a call writes. */
  function LogCount(chain: seq<Step>, ctx: Ctx): nat {
    if chain == [] then 0
    else
      match chain[0]
      case Inject => LogCount(chain[1..], ctx)
      case Logging(logs, logsStart) =>
        (if logs then if logsStart then 2 else 1 else 0) + LogCount(chain[1..], ctx)
      case Other(change) =>
        if change(ctx).None? then 0 else LogCount(chain[1..], change(ctx).value)
  }

  /** No inject-logger interceptor, and nobody changes the trace id. */
  ghost predicate WithoutInject(chain: seq<Step>) {
    forall i :: 0 <= i < |chain| ==> !chain[i].Inject? && KeepsTraceId(chain[i])
  }

  /** `count` ids in a row: that of the context, or else each time the next fresh one. */
  ghost predicate IdsInTurn(ids: seq<string>, count: nat, ctx: Ctx, ulids: Supply, n: nat) {
    && |ids| == count
    && forall j :: 0 <= j < count ==> ids[j] == TraceIdFromContext(ctx, ulids, n + j).0
  }

  lemma IdsInTurnAppend(a: seq<string>, b: seq<string>, ctx: Ctx, ulids: Supply, n: nat)
    requires IdsInTurn(a, |a|, ctx, ulids, n)
    requires IdsInTurn(b, |b|, ctx, ulids, if Existing(ctx).Some? then n else n + |a|)
    ensures IdsInTurn(a + b, |a| + |b|, ctx, ulids, n)
  {
    forall j | 0 <= j < |a| + |b|
      ensures (a + b)[j] == TraceIdFromContext(ctx, ulids, n + j).0
    {
      if |a| <= j { assert (a + b)[j] == b[j - |a|]; }
    }
  }

  lemma ThreeInTurn(a: seq<string>, b: seq<string>, c: seq<string>, ctx: Ctx, ulids: Supply, n: nat)
    requires IdsInTurn(a, |a|, ctx, ulids, n)
    requires IdsInTurn(b, |b|, ctx, ulids, if Existing(ctx).Some? then n else n + |a|)
    requires IdsInTurn(c, |c|, ctx, ulids, if Existing(ctx).Some? then n else n + |a| + |b|)
    ensures IdsInTurn(a + b + c, |a| + |b| + |c|, ctx, ulids, n)
  {
    IdsInTurnAppend(a, b, ctx, ulids, n);
    IdsInTurnAppend(a + b, c, ctx, ulids, n);
  }

  lemma LogIdsAround(first: seq<Event>, inner: seq<Event>, last: seq<Event>)
    ensures LogIds(first + inner + last) == LogIds(first) + LogIds(inner) + LogIds(last)
  {
    LogIdsAppend(first + inner, last);
    LogIdsAppend(first, inner);
  }

  lemma OneLine(e: Event)
    ensures LogIds([e]) == if e.Handled? then [] else [e.id]
  {
    assert [e][1..] == [];
  }

  /** Without the inject-logger interceptor every log line asks for an id of its own. */
  lemma {:induction false} EachLogAsksForItsId(chain: seq<Step>, ctx: Ctx, ulids: Supply, n: nat)
    requires WithoutInject(chain)
    ensures var (events, rest) := Call(chain, ctx, ulids, n);
            && IdsInTurn(LogIds(events), LogCount(chain, ctx), ctx, ulids, n)
            && rest == if Existing(ctx).Some? then n else n + LogCount(chain, ctx)
    decreases |chain|, 1
  {
    if chain == [] {
      assert Call(chain, ctx, ulids, n).0[1..] == [];
    } else {
      var tail := chain[1..];
      assert WithoutInject(tail);
      match chain[0]
      case Inject =>
      case Other(change) =>
        assert KeepsTraceId(chain[0]);
        if change(ctx).Some? {
          EachLogAsksForItsId(tail, change(ctx).value, ulids, n);
        }
      case Logging(logs, logsStart) =>
        LoggingAsksAroundTheRest(tail, ctx, ulids, n, logs, logsStart);
    }
  }

  /** The ids around an inner call: one before it if it starts a log, one after it if it logs. */
  lemma IdsAround(inner: seq<string>, ctx: Ctx, ulids: Supply, n: nat, starts: bool, logs: bool, rest: nat)
    requires IdsInTurn(inner, |inner|, ctx, ulids, if starts then n + Used(ctx) else n)
    requires rest == (if Existing(ctx).Some? then n else n + |inner| + if starts then 1 else 0)
    ensures var first := if starts then [TraceIdFromContext(ctx, ulids, n).0] else [];
            var last := if logs then [TraceIdFromContext(ctx, ulids, rest).0] else [];
            IdsInTurn(first + inner + last, |first| + |inner| + |last|, ctx, ulids, n)
  {
    var first := if starts then [TraceIdFromContext(ctx, ulids, n).0] else [];
    var last := if logs then [TraceIdFromContext(ctx, ulids, rest).0] else [];
    ThreeInTurn(first, inner, last, ctx, ulids, n);
  }

  lemma LoggingUnfolds(tail: seq<Step>, ctx: Ctx, ulids: Supply, n: nat, logs: bool, logsStart: bool)
    ensures var starts := logs && logsStart;
            var (events, end) := Call([Logging(logs, logsStart)] + tail, ctx, ulids, n);
            var (inner, rest) := Call(tail, ctx, ulids, if starts then n + Used(ctx) else n);
            && LogIds(events) == (if starts then [TraceIdFromContext(ctx, ulids, n).0] else [])
                                 + LogIds(inner)
                                 + (if logs then [TraceIdFromContext(ctx, ulids, rest).0] else [])
            && end == if logs then rest + Used(ctx) else rest
  {
    var chain := [Logging(logs, logsStart)] + tail;
    assert chain[1..] == tail;
    var starts := logs && logsStart;
    var (inner, rest) := Call(tail, ctx, ulids, if starts then n + Used(ctx) else n);
    var started, finished := Started(TraceIdFromContext(ctx, ulids, n).0), Finished(TraceIdFromContext(ctx, ulids, rest).0);
    OneLine(started);
    OneLine(finished);
    LogIdsAround(if starts then [started] else [], inner, if logs then [finished] else []);
  }

  lemma LoggingAsksAroundTheRest(tail: seq<Step>, ctx: Ctx, ulids: Supply, n: nat, logs: bool, logsStart: bool)
    requires WithoutInject(tail)
    ensures var chain := [Logging(logs, logsStart)] + tail;
            var (events, rest) := Call(chain, ctx, ulids, n);
            && IdsInTurn(LogIds(events), LogCount(chain, ctx), ctx, ulids, n)
            && rest == if Existing(ctx).Some? then n else n + LogCount(chain, ctx)
    decreases |tail| + 1, 0
  {
    var chain := [Logging(logs, logsStart)] + tail;
    assert chain[1..] == tail;
    var starts := logs && logsStart;
    var begin := if starts then n + Used(ctx) else n;
    EachLogAsksForItsId(tail, ctx, ulids, begin);
    var (inner, rest) := Call(tail, ctx, ulids, begin);
    LoggingUnfolds(tail, ctx, ulids, n, logs, logsStart);
    IdsAround(LogIds(inner), ctx, ulids, n, starts, logs, rest);
  }

  ghost predicate AllEqual(ids: seq<string>) {
    forall i, j :: 0 <= i < j < |ids| ==> ids[i] == ids[j]
  }

  function Drawn(ulids: Supply, n: nat, count: nat): (ids: seq<string>)
    ensures |ids| == count && forall i :: 0 <= i < count ==> ids[i] == ulids(n + i)
  {
    seq(count, i requires 0 <= i => ulids(n + i))
  }

  lemma LocalIdsDiffer(a: string, b: string)
    ensures "local-" + a == "local-" + b <==> a == b
  {
    assert ("local-" + a)[6..] == a && ("local-" + b)[6..] == b;
  }

  /**
   Without the inject-logger interceptor, for every chain that leaves the trace id alone:
   all log lines of a call, unary or stream, carry one id if and only if the request came
   with an id, or the identifiers drawn for the lines happen to be the same.
   */
  lemma OneLogIdWithoutInjectIff(chain: seq<Step>, ctx: Ctx, ulids: Supply, n: nat)
    requires WithoutInject(chain)
    ensures var ids := LogIds(Call(chain, ctx, ulids, n).0);
            && |ids| == LogCount(chain, ctx)
            && (AllEqual(ids) <==>
                Existing(ctx).Some? || AllEqual(Drawn(ulids, n, LogCount(chain, ctx))))
            && LogIds(CallStream(chain, Transport(ctx), ulids, n).0) == ids
  {
    StreamsLikeUnary(chain, Transport(ctx), ulids, n);
    EachLogAsksForItsId(chain, ctx, ulids, n);
    var ids := LogIds(Call(chain, ctx, ulids, n).0);
    var drawn := Drawn(ulids, n, LogCount(chain, ctx));
    forall i, j | 0 <= i < j < |ids|
      ensures ids[i] == ids[j] <==> Existing(ctx).Some? || drawn[i] == drawn[j]
    {
      LocalIdsDiffer(ulids(n + i), ulids(n + j));
    }
  }

  /** The plain server without it: the start and the finish log agree exactly in those cases. */
  lemma LoggingAloneSplitsTheId(ctx: Ctx, ulids: Supply, n: nat)
    ensures var events := Call([Logging(true, true)], ctx, ulids, n).0;
            && |events| == 3 && events[0].Started? && events[2].Finished?
            && (events[0].id == events[2].id <==> Existing(ctx).Some? || ulids(n) == ulids(n + 1))
  {
    assert [Logging(true, true)][1..] == [];
    assert Call([], ctx, ulids, n + Used(ctx)) == ([Handled(ctx.logger)], n + Used(ctx));
    LocalIdsDiffer(ulids(n), ulids(n + 1));
  }
}
