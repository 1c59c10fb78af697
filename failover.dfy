/**
 * The priority failover rule of the upstream dispatcher, as functions of the
 * backend states and the network script: what one `SendData` does, what the
 * scheduler does with one message, and with a whole run of messages. The
 * classes in module Upstreams are proved to behave exactly like these.
 */
module Failover {
  import opened Base
  import opened Network

  /** The value of one `backend`: its address, timings, retry budget and connection. */
  datatype BackendState = BackendState(server: string, interval: int64, timeout: int64, retries: int, conn: Option<Conn>)

  /** `Connect`'s effect on `conn`: kept when the address does not resolve, else the dial result (nil on failure). */
  function Reconnected(conn: Option<Conn>, outcome: DialOutcome): Option<Conn>
  {
    match outcome
    case Unresolvable => conn
    case DialFailed => None
    case Dialed(c) => Some(c)
  }

  /** Whether a `SendData` succeeded, the connection it leaves, and the network trace after it. */
  datatype Sent = Sent(ok: bool, conn: Option<Conn>, net: Trace)

  /** The retry loop of `SendData`, from attempt `i` on: reconnect, and write when the reconnect worked. */
  function Retry(sc: Script, server: string, data: seq<byte>, i: int, retries: int, conn: Option<Conn>, net: Trace): Sent
    decreases retries - i
  {
    if retries <= i then Sent(false, conn, net)
    else
      var outcome := sc.dial(net.dials);
      var dialed := net.(dials := net.dials + 1);
      match outcome
      case Dialed(c) =>
        var ok := sc.write(dialed.writes);
        var wrote := AfterWrite(dialed, Delivery(server, c, data), ok);
        if ok then Sent(true, Some(c), wrote)
        else Retry(sc, server, data, i + 1, retries, Some(c), wrote)
      case _ =>
        Retry(sc, server, data, i + 1, retries, Reconnected(conn, outcome), dialed)
  }

  /** `backend.SendData`: one write on the current connection, if any, then up to `retries - 1` reconnects. */
  function Send(sc: Script, b: BackendState, data: seq<byte>, net: Trace): Sent
  {
    match b.conn
    case Some(c) =>
      var ok := sc.write(net.writes);
      var wrote := AfterWrite(net, Delivery(b.server, c, data), ok);
      if ok then Sent(true, b.conn, wrote)
      else Retry(sc, b.server, data, 1, b.retries, b.conn, wrote)
    case None =>
      Retry(sc, b.server, data, 1, b.retries, None, net)
  }

  /** The number of reconnect attempts left from attempt `i`: `max(0, retries - i)`. */
  function Budget(i: int, retries: int): nat {
    if retries <= i then 0 else retries - i
  }

  /** No write of the script between positions `lo` and `hi` succeeds. */
  ghost predicate WritesFail(sc: Script, lo: nat, hi: nat) {
    forall k: nat :: lo <= k < hi ==> !sc.write(k)
  }

  /** How many of the dials at positions `lo` to `hi - 1` of the script give a connection. */
  function DialedIn(sc: Script, lo: nat, hi: nat): nat
    decreases hi - lo
  {
    if hi <= lo then 0
    else (if sc.dial(lo).Dialed? then 1 else 0) + DialedIn(sc, lo + 1, hi)
  }

  /**
   * The retry loop uses at most its budget of reconnects, and all of it when it
   * fails; it writes at most once per reconnect; it succeeds exactly when one
   * of its writes does, which is then its last; on success exactly one write
   * of the data succeeds, over the connection it leaves behind, and none on
   * failure.
   */
  lemma {:induction false} RetryFacts(sc: Script, server: string, data: seq<byte>, i: int, retries: int, conn: Option<Conn>, net: Trace)
    ensures var r := Retry(sc, server, data, i, retries, conn, net);
      && net.dials <= r.net.dials <= net.dials + Budget(i, retries)
      && (!r.ok ==> r.net.dials == net.dials + Budget(i, retries))
      && net.writes <= r.net.writes <= net.writes + (r.net.dials - net.dials)
      && (!r.ok <==> WritesFail(sc, net.writes, r.net.writes))
      && (r.ok ==> r.net.writes > net.writes && sc.write(r.net.writes - 1) && WritesFail(sc, net.writes, r.net.writes - 1))
      && (r.ok ==> r.conn.Some? && r.net.delivered == net.delivered + [Delivery(server, r.conn.value, data)])
      && (!r.ok ==> r.net.delivered == net.delivered)
    decreases retries - i
  {
    if i < retries {
      var outcome := sc.dial(net.dials);
      var dialed := net.(dials := net.dials + 1);
      match outcome
      case Dialed(c) =>
        var ok := sc.write(dialed.writes);
        var wrote := AfterWrite(dialed, Delivery(server, c, data), ok);
        if !ok {
          RetryFacts(sc, server, data, i + 1, retries, Some(c), wrote);
        }
      case _ =>
        RetryFacts(sc, server, data, i + 1, retries, Reconnected(conn, outcome), dialed);
    }
  }

  /** The retry loop writes exactly once after each reconnect that gives a connection, and never otherwise. */
  lemma {:induction false} RetryWritesAfterEachDial(sc: Script, server: string, data: seq<byte>, i: int, retries: int, conn: Option<Conn>, net: Trace)
    ensures var r := Retry(sc, server, data, i, retries, conn, net);
      net.dials <= r.net.dials && r.net.writes - net.writes == DialedIn(sc, net.dials, r.net.dials)
    decreases retries - i
  {
    if i < retries {
      var outcome := sc.dial(net.dials);
      var dialed := net.(dials := net.dials + 1);
      match outcome
      case Dialed(c) =>
        var ok := sc.write(dialed.writes);
        var wrote := AfterWrite(dialed, Delivery(server, c, data), ok);
        if !ok {
          RetryWritesAfterEachDial(sc, server, data, i + 1, retries, Some(c), wrote);
        }
      case _ =>
        RetryWritesAfterEachDial(sc, server, data, i + 1, retries, Reconnected(conn, outcome), dialed);
    }
  }

  /**
   * `SendData` on a connected backend whose first write succeeds returns
   * success at once: no reconnect, one write, the connection kept.
   */
  lemma SendFastPath(sc: Script, b: BackendState, data: seq<byte>, net: Trace)
    requires b.conn.Some? && sc.write(net.writes)
    ensures var r := Send(sc, b, data, net);
      r.ok && r.conn == b.conn && r.net.dials == net.dials && r.net.writes == net.writes + 1
      && r.net.delivered == net.delivered + [Delivery(b.server, b.conn.value, data)]
  {
  }

  /**
   * `SendData` makes at most `max(0, retries - 1)` reconnect attempts, and
   * exactly that many when it fails; its writes are the first one (when it
   * had a connection) plus exactly one after each reconnect that gives a
   * connection.
   */
  lemma SendAttempts(sc: Script, b: BackendState, data: seq<byte>, net: Trace)
    ensures var r := Send(sc, b, data, net);
      var first := if b.conn.Some? then 1 else 0;
      && r.net.dials - net.dials <= Budget(1, b.retries)
      && (!r.ok ==> r.net.dials - net.dials == Budget(1, b.retries))
      && r.net.writes - net.writes <= first + (r.net.dials - net.dials)
      && r.net.writes - net.writes == first + DialedIn(sc, net.dials, r.net.dials)
      && (b.retries <= 1 ==> r.net.dials == net.dials && r.net.writes == net.writes + first)
  {
    if b.conn.Some? {
      var c := b.conn.value;
      var ok := sc.write(net.writes);
      RetryFacts(sc, b.server, data, 1, b.retries, b.conn, AfterWrite(net, Delivery(b.server, c, data), ok));
      RetryWritesAfterEachDial(sc, b.server, data, 1, b.retries, b.conn, AfterWrite(net, Delivery(b.server, c, data), ok));
    } else {
      RetryFacts(sc, b.server, data, 1, b.retries, None, net);
      RetryWritesAfterEachDial(sc, b.server, data, 1, b.retries, None, net);
    }
  }

  /**
   * `SendData` writes once on its connection, if any, and once after each
   * successful reconnect, and returns an error exactly when all of those
   * writes failed; on success its last write is the one that worked.
   */
  lemma SendFailsIffAllWritesFail(sc: Script, b: BackendState, data: seq<byte>, net: Trace)
    ensures var r := Send(sc, b, data, net);
      && r.net.writes - net.writes == (if b.conn.Some? then 1 else 0) + DialedIn(sc, net.dials, r.net.dials)
      && (!r.ok <==> WritesFail(sc, net.writes, r.net.writes))
      && (r.ok ==> net.writes < r.net.writes && sc.write(r.net.writes - 1) && WritesFail(sc, net.writes, r.net.writes - 1))
  {
    if b.conn.Some? {
      var c := b.conn.value;
      var ok := sc.write(net.writes);
      RetryFacts(sc, b.server, data, 1, b.retries, b.conn, AfterWrite(net, Delivery(b.server, c, data), ok));
      RetryWritesAfterEachDial(sc, b.server, data, 1, b.retries, b.conn, AfterWrite(net, Delivery(b.server, c, data), ok));
    } else {
      RetryFacts(sc, b.server, data, 1, b.retries, None, net);
      RetryWritesAfterEachDial(sc, b.server, data, 1, b.retries, None, net);
    }
  }

  /** On success `SendData` makes exactly one successful write of the data, to this backend; on failure none. */
  lemma SendDelivers(sc: Script, b: BackendState, data: seq<byte>, net: Trace)
    ensures var r := Send(sc, b, data, net);
      && (r.ok ==> r.conn.Some? && r.net.delivered == net.delivered + [Delivery(b.server, r.conn.value, data)])
      && (!r.ok ==> r.net.delivered == net.delivered)
  {
    if b.conn.Some? {
      var c := b.conn.value;
      var ok := sc.write(net.writes);
      RetryFacts(sc, b.server, data, 1, b.retries, b.conn, AfterWrite(net, Delivery(b.server, c, data), ok));
    } else {
      RetryFacts(sc, b.server, data, 1, b.retries, None, net);
    }
  }

  // ---------------------------------------------------------------------
  // The scheduler
  // ---------------------------------------------------------------------

  /**
   * What the scheduler does with one message: the backend that took it, if
   * any; the backends asked, in order; the backend states and trace after.
   */
  datatype Routed = Routed(winner: Option<nat>, tried: seq<nat>, backends: seq<BackendState>, net: Trace)

  /** The inner loop of `sheduller` from backend `i` on: `SendData` on each in turn until one succeeds. */
  function Dispatch(sc: Script, bs: seq<BackendState>, i: nat, data: seq<byte>, net: Trace): Routed
    decreases |bs| - i
  {
    if |bs| <= i then Routed(None, [], bs, net)
    else
      var s := Send(sc, bs[i], data, net);
      var bs' := bs[i := bs[i].(conn := s.conn)];
      if s.ok then Routed(Some(i), [i], bs', s.net)
      else
        var rest := Dispatch(sc, bs', i + 1, data, s.net);
        rest.(tried := [i] + rest.tried)
  }

  /** `after` is `before` with possibly other connections, and nothing else changed. */
  ghost predicate SameRegistry(before: seq<BackendState>, after: seq<BackendState>) {
    |after| == |before|
    && forall k :: 0 <= k < |before| ==> after[k] == before[k].(conn := after[k].conn)
  }

  /**
   * Priority order for one message: backends are asked in ascending index
   * order from `i`; the scheduler stops at the first that succeeds, and when
   * all fail every backend was asked. Only connections change, and nothing
   * before `i` or after the winner is touched.
   */
  lemma {:induction false} DispatchOrder(sc: Script, bs: seq<BackendState>, i: nat, data: seq<byte>, net: Trace)
    ensures var r := Dispatch(sc, bs, i, data, net);
      && SameRegistry(bs, r.backends)
      && (forall k :: 0 <= k < |r.tried| ==> r.tried[k] == i + k)
      && (forall k :: 0 <= k < i && k < |bs| ==> r.backends[k] == bs[k])
      && (r.winner.Some? ==>
            && i <= r.winner.value < |bs|
            && |r.tried| > 0 && r.tried[|r.tried| - 1] == r.winner.value
            && (forall k :: r.winner.value < k < |bs| ==> r.backends[k] == bs[k]))
      && (r.winner.None? ==> |r.tried| == (if i <= |bs| then |bs| - i else 0))
    decreases |bs| - i
  {
    if i < |bs| {
      var s := Send(sc, bs[i], data, net);
      var bs' := bs[i := bs[i].(conn := s.conn)];
      if !s.ok {
        DispatchOrder(sc, bs', i + 1, data, s.net);
      }
    }
  }

  /**
   * The winner's write is the only successful write of the message, made once
   * over the connection it keeps; when all fail the message is dropped.
   */
  lemma {:induction false} DispatchFirstSuccess(sc: Script, bs: seq<BackendState>, i: nat, data: seq<byte>, net: Trace)
    ensures var r := Dispatch(sc, bs, i, data, net);
      && (r.winner.Some? ==>
            && i <= r.winner.value < |bs| == |r.backends|
            && r.backends[r.winner.value].conn.Some?
            && r.net.delivered == net.delivered
                 + [Delivery(bs[r.winner.value].server, r.backends[r.winner.value].conn.value, data)])
      && (r.winner.None? ==> r.net.delivered == net.delivered)
    decreases |bs| - i
  {
    if i < |bs| {
      var s := Send(sc, bs[i], data, net);
      var bs' := bs[i := bs[i].(conn := s.conn)];
      SendDelivers(sc, bs[i], data, net);
      if !s.ok {
        DispatchFirstSuccess(sc, bs', i + 1, data, s.net);
      }
    }
  }

  /** A run of the scheduler: the winner of each message, the backend states and the trace after. */
  datatype Run = Run(winners: seq<Option<nat>>, backends: seq<BackendState>, net: Trace)

  /** The outer loop of `sheduller`: each message of the channel, in order, through `Dispatch`. */
  function DispatchAll(sc: Script, bs: seq<BackendState>, messages: seq<seq<byte>>, net: Trace): Run
    decreases |messages|
  {
    if messages == [] then Run([], bs, net)
    else
      var d := Dispatch(sc, bs, 0, messages[0], net);
      var rest := DispatchAll(sc, d.backends, messages[1..], d.net);
      Run([d.winner] + rest.winners, rest.backends, rest.net)
  }

  /** The bytes of each delivery, in order. */
  function Payloads(ds: seq<Delivery>): seq<seq<byte>> {
    if ds == [] then [] else [ds[0].data] + Payloads(ds[1..])
  }

  /** The messages that some backend took, in order. */
  function Taken(messages: seq<seq<byte>>, winners: seq<Option<nat>>): seq<seq<byte>>
    requires |winners| == |messages|
  {
    if messages == [] then []
    else (if winners[0].Some? then [messages[0]] else []) + Taken(messages[1..], winners[1..])
  }

  lemma {:induction false} PayloadsAppend(a: seq<Delivery>, b: seq<Delivery>)
    ensures Payloads(a + b) == Payloads(a) + Payloads(b)
  {
    if a == [] {
      assert a + b == b;
    } else {
      assert (a + b)[1..] == a[1..] + b;
      PayloadsAppend(a[1..], b);
    }
  }

  /** One message through the scheduler adds that message to the payloads exactly when some backend took it. */
  lemma DispatchPayloads(sc: Script, bs: seq<BackendState>, data: seq<byte>, net: Trace)
    ensures var d := Dispatch(sc, bs, 0, data, net);
      && SameRegistry(bs, d.backends)
      && (d.winner.Some? ==> d.winner.value < |bs|)
      && Payloads(d.net.delivered) == Payloads(net.delivered) + (if d.winner.Some? then [data] else [])
  {
    var d := Dispatch(sc, bs, 0, data, net);
    DispatchOrder(sc, bs, 0, data, net);
    DispatchFirstSuccess(sc, bs, 0, data, net);
    if d.winner.Some? {
      var b := d.backends[d.winner.value];
      PayloadsAppend(net.delivered, [Delivery(bs[d.winner.value].server, b.conn.value, data)]);
    }
  }

  /**
   * Over a run, the successful writes carry exactly the messages some backend
   * took, each once, in channel order; a message every backend refused is
   * abandoned and the next one is processed; the registry keeps its order.
   */
  lemma {:induction false} DispatchAllDelivers(sc: Script, bs: seq<BackendState>, messages: seq<seq<byte>>, net: Trace)
    ensures var r := DispatchAll(sc, bs, messages, net);
      && |r.winners| == |messages|
      && SameRegistry(bs, r.backends)
      && (forall k :: 0 <= k < |messages| && r.winners[k].Some? ==> r.winners[k].value < |bs|)
      && Payloads(r.net.delivered) == Payloads(net.delivered) + Taken(messages, r.winners)
    decreases |messages|
  {
    if messages != [] {
      var d := Dispatch(sc, bs, 0, messages[0], net);
      DispatchPayloads(sc, bs, messages[0], net);
      DispatchAllDelivers(sc, d.backends, messages[1..], d.net);
      var rest := DispatchAll(sc, d.backends, messages[1..], d.net);
      var r := DispatchAll(sc, bs, messages, net);
      assert r.winners == [d.winner] + rest.winners;
      assert r.winners[1..] == rest.winners;
      var took: seq<seq<byte>> := if d.winner.Some? then [messages[0]] else [];
      assert Taken(messages, r.winners) == took + Taken(messages[1..], rest.winners);
      assert Payloads(rest.net.delivered) == Payloads(net.delivered) + took + Taken(messages[1..], rest.winners);
    }
  }

  /** When every message found a backend, the successful writes carry the channel exactly, in order. */
  lemma AllTakenInOrder(sc: Script, bs: seq<BackendState>, messages: seq<seq<byte>>, net: Trace)
    requires var r := DispatchAll(sc, bs, messages, net);
      |r.winners| == |messages| && forall k :: 0 <= k < |messages| ==> r.winners[k].Some?
    ensures Payloads(DispatchAll(sc, bs, messages, net).net.delivered) == Payloads(net.delivered) + messages
  {
    DispatchAllDelivers(sc, bs, messages, net);
    TakenAll(messages, DispatchAll(sc, bs, messages, net).winners);
  }

  lemma {:induction false} TakenAll(messages: seq<seq<byte>>, winners: seq<Option<nat>>)
    requires |winners| == |messages| && forall k :: 0 <= k < |messages| ==> winners[k].Some?
    ensures Taken(messages, winners) == messages
  {
    if messages != [] {
      TakenAll(messages[1..], winners[1..]);
    }
  }
}
