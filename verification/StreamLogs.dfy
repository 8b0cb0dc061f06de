/** The monitored streams: which payload is captured and what is logged, over whole runs. */
module StreamLogs {
  import opened Common

  /** A message is a protobuf message with some content, or something else. */
  datatype Msg = Proto(content: int) | Opaque(content: int)

  /** How a stream operation ends. */
  datatype Status = Success | Eof | Failure(code: int)

  /** The finish log of a stream: the captured payload and the error it reports, if any. */
  datatype Finish = Finish(payload: Option<Msg>, error: Option<int>)

  /** One receive of a handler: the message that arrived in its buffer, and the status. */
  datatype Recv = Recv(msg: Msg, status: Status)

  /** What the client has captured after sending one more message. */
  function Capture(payload: Option<Msg>, msg: Msg): Option<Msg> {
    if payload.None? && msg.Proto? then Some(msg) else payload
  }

  class MonitoredServerStream {
    var payload: Option<Msg>
    ghost var received: seq<Recv>

    ghost predicate Valid()
      reads this
    {
      payload == FirstReceived(received)
    }

    constructor ()
      ensures Valid() && payload.None? && received == []
    {
      payload, received := None, [];
    }

    /** The result of the wrapped stream passes through; the first good message is kept. */
    method RecvMsg(inner: Recv) returns (status: Status)
      requires Valid()
      modifies this
      ensures Valid() && received == old(received) + [inner]
      ensures status == inner.status
      ensures payload == if old(payload.None?) && inner.status == Success && inner.msg.Proto? then Some(inner.msg)
                         else old(payload)
    {
      status := inner.status;
      if status == Success && payload.None? {
        if inner.msg.Proto? {
          payload := Some(inner.msg);
        }
      }
      FirstReceivedAppend(received, inner);
      received := received + [inner];
    }
  }

  /** The first protobuf message that was received successfully. */
  function FirstReceived(run: seq<Recv>): Option<Msg> {
    if run == [] then None
    else if run[0].status == Success && run[0].msg.Proto? then Some(run[0].msg)
    else FirstReceived(run[1..])
  }

  lemma {:induction false} FirstReceivedAppend(run: seq<Recv>, last: Recv)
    ensures FirstReceived(run + [last]) ==
            if FirstReceived(run).None? && last.status == Success && last.msg.Proto? then Some(last.msg) else FirstReceived(run)
    decreases |run|
  {
    if run == [] {
      assert [last][1..] == [];
      assert run + [last] == [last];
    } else {
      assert (run + [last])[1..] == run[1..] + [last];
      FirstReceivedAppend(run[1..], last);
    }
  }

  /** What it means to be first: it was received, and nothing before it qualifies. */
  lemma {:induction false} FirstReceivedMeaning(run: seq<Recv>)
    ensures FirstReceived(run).None? ==> forall i :: 0 <= i < |run| ==> run[i].status != Success || !run[i].msg.Proto?
    ensures FirstReceived(run).Some? ==>
              exists i :: && 0 <= i < |run| && run[i].status == Success && run[i].msg.Proto? && FirstReceived(run) == Some(run[i].msg)
                          && forall k :: 0 <= k < i ==> run[k].status != Success || !run[k].msg.Proto?
    decreases |run|
  {
    if run != [] && !(run[0].status == Success && run[0].msg.Proto?) {
      FirstReceivedMeaning(run[1..]);
      if FirstReceived(run).Some? {
        var i :| && 0 <= i < |run[1..]| && run[1..][i].status == Success && run[1..][i].msg.Proto?
                 && FirstReceived(run[1..]) == Some(run[1..][i].msg)
                 && forall k :: 0 <= k < i ==> run[1..][k].status != Success || !run[1..][k].msg.Proto?;
        assert run[i + 1] == run[1..][i];
        assert forall k :: 1 <= k < i + 1 ==> run[k] == run[1..][k - 1];
      }
    }
  }

  /**
   The stream server interceptor around a handler that makes the given receives and then
   returns: the start log has no payload, the finish log has the first one received.
   */
  method LoggedServerCall(run: seq<Recv>, handlerError: Option<int>, logs: bool, logsStart: bool)
    returns (statuses: seq<Status>, start: Option<Option<Msg>>, finish: Option<Finish>, error: Option<int>)
    ensures error == handlerError
    ensures |statuses| == |run| && forall i :: 0 <= i < |run| ==> statuses[i] == run[i].status
    ensures start == if logs && logsStart then Some(None) else None
    ensures finish == if logs then Some(Finish(FirstReceived(run), handlerError)) else None
  {
    var stream := new MonitoredServerStream();
    start := if logs && logsStart then Some(stream.payload) else None;
    statuses := [];
    for i := 0 to |run|
      invariant stream.Valid() && stream.received == run[..i]
      invariant |statuses| == i && forall k :: 0 <= k < i ==> statuses[k] == run[k].status
    {
      var status := stream.RecvMsg(run[i]);
      statuses := statuses + [status];
    }
    assert run[..|run|] == run;
    error := handlerError;
    finish := if logs then Some(Finish(stream.payload, error)) else None;
  }

  /** One operation of a client on a stream. */
  datatype Op = Send(msg: Msg, sent: Status) | Receive(got: Status)

  /** A receive after which the client stops: an error or end of stream, or the one reply of a unary response. */
  predicate Terminal(op: Op, serverStreams: bool) {
    op.Receive? && (op.got != Success || !serverStreams)
  }

  function ErrorOf(status: Status): Option<int> {
    if status.Failure? then Some(status.code) else None
  }

  class MonitoredClientStream {
    const serverStreams: bool
    var payload: Option<Msg>
    var finishes: seq<Finish>
    ghost var run: seq<Op>

    ghost predicate Valid()
      reads this
    {
      payload == FirstSent(run) && finishes == FinishLogs(run, serverStreams)
    }

    constructor (serverStreams: bool)
      ensures Valid() && run == [] && this.serverStreams == serverStreams
    {
      this.serverStreams := serverStreams;
      payload, finishes, run := None, [], [];
    }

    /** The first protobuf message is kept before it is sent, whether or not sending works. */
    method SendMsg(msg: Msg, inner: Status) returns (status: Status)
      requires Valid()
      modifies this
      ensures Valid() && run == old(run) + [Send(msg, inner)]
      ensures status == inner && finishes == old(finishes)
      ensures payload == if old(payload.None?) && msg.Proto? then Some(msg) else old(payload)
    {
      if payload.None? {
        if msg.Proto? {
          payload := Some(msg);
        }
      }
      RunAppend(run, Send(msg, inner), serverStreams);
      run := run + [Send(msg, inner)];
      status := inner;
    }

    method RecvMsg(inner: Status) returns (status: Status)
      requires Valid()
      modifies this
      ensures Valid() && run == old(run) + [Receive(inner)]
      ensures status == inner && payload == old(payload)
      ensures finishes == old(finishes) +
                          match inner
                          case Eof => [Finish(payload, None)]
                          case Failure(code) => [Finish(payload, Some(code))]
                          case Success => if serverStreams then [] else [Finish(payload, None)]
    {
      RunAppend(run, Receive(inner), serverStreams);
      run := run + [Receive(inner)];
      if inner == Success && !serverStreams {
        finishes := finishes + [Finish(payload, None)];
        return Success;
      }
      if inner == Eof {
        finishes := finishes + [Finish(payload, None)];
      } else if inner != Success {
        finishes := finishes + [Finish(payload, Some(inner.code))];
      }
      status := inner;
    }
  }

  /** The first protobuf message that the client sent. */
  function FirstSent(run: seq<Op>): Option<Msg> {
    if run == [] then None
    else
      var before, op := FirstSent(run[..|run| - 1]), run[|run| - 1];
      if op.Send? then Capture(before, op.msg) else before
  }

  /** One finish log per terminal receive, with the payload captured by then. */
  function FinishLogs(run: seq<Op>, serverStreams: bool): seq<Finish> {
    if run == [] then []
    else
      var op := run[|run| - 1];
      var before := FinishLogs(run[..|run| - 1], serverStreams);
      if Terminal(op, serverStreams) then before + [Finish(FirstSent(run), ErrorOf(op.got))] else before
  }

  lemma RunAppend(run: seq<Op>, op: Op, serverStreams: bool)
    ensures FirstSent(run + [op]) == if op.Send? then Capture(FirstSent(run), op.msg) else FirstSent(run)
    ensures FinishLogs(run + [op], serverStreams) ==
            FinishLogs(run, serverStreams) +
            if Terminal(op, serverStreams) then [Finish(FirstSent(run), ErrorOf(op.got))] else []
  {
    assert (run + [op])[..|run|] == run;
  }

  /** Nothing before index i is a protobuf message sent. */
  ghost predicate NoneSentBefore(run: seq<Op>, i: nat) {
    forall k :: 0 <= k < i && k < |run| && run[k].Send? ==> !run[k].msg.Proto?
  }

  /** The captured payload is the first protobuf message sent, at whatever index that is. */
  lemma {:induction false} FirstSentMeaning(run: seq<Op>, i: nat)
    requires i < |run| && run[i].Send? && run[i].msg.Proto? && NoneSentBefore(run, i)
    ensures FirstSent(run) == Some(run[i].msg)
  {
    var front := run[..|run| - 1];
    if i < |run| - 1 {
      FirstSentMeaning(front, i);
    } else {
      NoneSent(front);
    }
  }

  lemma {:induction false} NoneSent(run: seq<Op>)
    requires NoneSentBefore(run, |run|)
    ensures FirstSent(run).None?
  {
    if run != [] {
      NoneSent(run[..|run| - 1]);
    }
  }

  lemma {:induction false} NoTerminalNoLog(run: seq<Op>, serverStreams: bool)
    requires forall i :: 0 <= i < |run| ==> !Terminal(run[i], serverStreams)
    ensures FinishLogs(run, serverStreams) == []
  {
    if run != [] {
      NoTerminalNoLog(run[..|run| - 1], serverStreams);
    }
  }

  /**
   A client that stops receiving at the first terminal receive gets exactly one finish
   log: it carries the first protobuf message sent until then and the error received,
   where end of stream counts as no error. Sends may still follow.
   */
  lemma {:induction false} ExactlyOneFinishLog(run: seq<Op>, serverStreams: bool, t: nat)
    requires t < |run| && Terminal(run[t], serverStreams)
    requires forall i :: 0 <= i < |run| && i != t ==> !Terminal(run[i], serverStreams)
    ensures FinishLogs(run, serverStreams) == [Finish(FirstSent(run[..t]), ErrorOf(run[t].got))]
  {
    var front := run[..|run| - 1];
    if t == |run| - 1 {
      NoTerminalNoLog(front, serverStreams);
      assert run[..t] == front;
    } else {
      ExactlyOneFinishLog(front, serverStreams, t);
      assert front[..t] == run[..t];
    }
  }
}
