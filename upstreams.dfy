/**
 * The upstream side of the relay: a registry of backends in priority order
 * (list position), each with one connection, and a scheduler that offers
 * every message to the backends in that order until one takes it.
 */
module Upstreams {
  import opened Base
  import opened Network
  import opened Failover

  const NanosPerMilli: int := 1_000_000
  const TwoTo64: int := 0x1_0000_0000_0000_0000

  /** The largest number of milliseconds whose `time.Duration` does not overflow. */
  const MaxMillis: int := 9_223_372_036_854

  /** Go's two's-complement wrap-around of an integer result into `int64`. */
  function Wrap64(x: int): (r: int64)
    ensures (r as int - x) % TwoTo64 == 0
    ensures -0x8000_0000_0000_0000 <= x < 0x8000_0000_0000_0000 ==> r as int == x
  {
    var m := x % TwoTo64;
    if m < 0x8000_0000_0000_0000 then m as int64 else (m - TwoTo64) as int64
  }

  /**
   * `time.Millisecond * time.Duration(ms)`: nanoseconds, computed in `int64`
   * and so wrapping around beyond about 292 years.
   */
  function Millis(ms: int64): (d: int64)
    ensures (d as int - ms as int * NanosPerMilli) % TwoTo64 == 0
    ensures -MaxMillis <= ms as int <= MaxMillis ==> d as int == ms as int * NanosPerMilli
  {
    Wrap64(ms as int * NanosPerMilli)
  }

  /** One downstream collector (`backend`). */
  class Backend {
    var conn: Option<Conn>
    const server: string
    const interval: int64
    const timeout: int64
    const retries: int

    /** The value of this backend. */
    function View(): BackendState
      reads this
    {
      BackendState(server, interval, timeout, retries, conn)
    }

    /** The struct literal of `Start`: no connection yet. */
    constructor (server: string, interval: int64, timeout: int64, retries: int)
      ensures View() == BackendState(server, interval, timeout, retries, None)
    {
      this.server := server;
      this.interval := interval;
      this.timeout := timeout;
      this.retries := retries;
      conn := None;
    }

    /**
     * `backend.Connect`: an unresolvable address is an error that leaves the
     * connection alone; otherwise the dial result replaces it, so a failed
     * dial drops a live connection and a successful one replaces it with a
     * new one (connecting twice is not idempotent).
     */
    method Connect(net: Net) returns (ok: bool)
      modifies this, net
      ensures var outcome := net.script.dial(old(net.dials));
        ok == outcome.Dialed? && conn == Reconnected(old(conn), outcome)
      ensures net.State() == old(net.State()).(dials := old(net.dials) + 1)
      ensures net.closed == old(net.closed)
    {
      var outcome := net.Dial();
      match outcome
      case Unresolvable =>
        ok := false;
      case DialFailed =>
        conn := None;
        ok := false;
      case Dialed(c) =>
        conn := Some(c);
        ok := true;
    }

    /**
     * `backend.SendData`: one write on the current connection; when there is
     * none or it fails, up to `retries - 1` rounds of reconnect-and-write.
     * Lemmas SendFastPath, SendAttempts, SendFailsIffAllWritesFail and
     * SendDelivers state what `Send` means.
     */
    method SendData(net: Net, data: seq<byte>) returns (ok: bool)
      modifies this, net
      ensures Sent(ok, conn, net.State()) == Send(net.script, old(View()), data, old(net.State()))
      ensures net.closed == old(net.closed)
    {
      if conn.Some? {
        var written := net.Write(server, conn.value, data);
        if written {
          return true;
        }
      }
      var i := 1;
      while i < retries
        invariant Retry(net.script, server, data, i, retries, conn, net.State())
          == Send(net.script, old(View()), data, old(net.State()))
        invariant net.closed == old(net.closed)
        decreases retries - i
      {
        var connected := Connect(net);
        if connected {
          var written := net.Write(server, conn.value, data);
          if written {
            return true;
          }
        }
        i := i + 1;
      }
      return false;
    }

    /** `backend.Stop`: close the connection; the source calls it on a connection that must exist. */
    method Stop(net: Net)
      requires conn.Some?
      modifies net
      ensures net.closed == old(net.closed) + [conn.value]
      ensures net.State() == old(net.State())
    {
      net.Close(conn.value);
    }
  }

  /** The backend registry and its configuration (`Upstream`). */
  class Upstream {
    var backends: array<Backend>
    const backendsList: seq<string>
    const backendReconnectInterval: int64
    const backendTimeout: int64
    const backendRetries: int

    /** Every registry slot holds its own backend. */
    ghost predicate Valid()
      reads this, backends
    {
      forall i, j :: 0 <= i < j < backends.Length ==> backends[i] != backends[j]
    }

    /** The registry as values, in priority order. */
    ghost function Views(): seq<BackendState>
      reads this, backends, backends[..]
    {
      var registry := backends[..];
      seq(|registry|, i requires 0 <= i < |registry| reads registry => registry[i].View())
    }

    /** The struct literal a caller fills in; the registry is empty until `Start`. */
    constructor (backendsList: seq<string>, reconnectInterval: int64, timeout: int64, retries: int)
      ensures this.backendsList == backendsList && backendReconnectInterval == reconnectInterval
      ensures backendTimeout == timeout && backendRetries == retries
      ensures Valid() && backends.Length == 0
    {
      this.backendsList := backendsList;
      backendReconnectInterval := reconnectInterval;
      backendTimeout := timeout;
      backendRetries := retries;
      backends := new Backend[0];
    }

    /**
     * `Upstream.Start`: one backend per configured address, in list order, so
     * priority is list position; each gets the configured timings in
     * nanoseconds and the configured retries, and one connection attempt whose
     * failure is only logged. (Launching the scheduler is `Schedule`.)
     */
    method Start(net: Net)
      modifies this, net
      ensures Valid() && fresh(backends)
      ensures backends.Length == |backendsList|
      ensures forall i :: 0 <= i < backends.Length ==> fresh(backends[i])
      ensures forall i :: 0 <= i < backends.Length ==>
        backends[i].View() == BackendState(backendsList[i], Millis(backendReconnectInterval), Millis(backendTimeout),
                                           backendRetries, Reconnected(None, net.script.dial(old(net.dials) + i)))
      ensures net.State() == old(net.State()).(dials := old(net.dials) + |backendsList|)
      ensures net.closed == old(net.closed)
    {
      var created: seq<Backend> := [];
      for i := 0 to |backendsList|
        invariant |created| == i
        invariant forall k :: 0 <= k < i ==> fresh(created[k])
        invariant forall k, l :: 0 <= k < l < i ==> created[k] != created[l]
        invariant forall k :: 0 <= k < i ==>
          created[k].View() == BackendState(backendsList[k], Millis(backendReconnectInterval), Millis(backendTimeout),
                                            backendRetries, Reconnected(None, net.script.dial(old(net.dials) + k)))
        invariant net.State() == old(net.State()).(dials := old(net.dials) + i)
        invariant net.closed == old(net.closed)
      {
        var b := new Backend(backendsList[i], Millis(backendReconnectInterval), Millis(backendTimeout), backendRetries);
        created := created + [b];
        var _ := b.Connect(net);
      }
      backends := new Backend[|created|](i requires 0 <= i < |created| => created[i]);
    }

    /**
     * `Upstream.sheduller` over the messages the channel delivers: each is
     * offered to the backends in index order until one `SendData` succeeds.
     * DispatchOrder, DispatchFirstSuccess and DispatchAllDelivers state what it means.
     */
    method Schedule(net: Net, messages: seq<seq<byte>>)
      requires Valid()
      modifies backends[..], net
      ensures Valid()
      ensures var run := DispatchAll(net.script, old(Views()), messages, old(net.State()));
        Views() == run.backends && net.State() == run.net
      ensures net.closed == old(net.closed)
    {
      for m := 0 to |messages|
        invariant Valid()
        invariant var run := DispatchAll(net.script, old(Views()), messages, old(net.State()));
          var rest := DispatchAll(net.script, Views(), messages[m..], net.State());
          rest.backends == run.backends && rest.net == run.net
        invariant net.closed == old(net.closed)
      {
        assert messages[m..][1..] == messages[m + 1..];
        Offer(net, messages[m]);
      }
    }

    /** The inner loop of `sheduller` for one message: the first backend whose `SendData` succeeds takes it. */
    method Offer(net: Net, data: seq<byte>)
      requires Valid()
      modifies backends[..], net
      ensures Valid()
      ensures var routed := Dispatch(net.script, old(Views()), 0, data, old(net.State()));
        Views() == routed.backends && net.State() == routed.net
      ensures net.closed == old(net.closed)
    {
      var i := 0;
      while i < backends.Length
        invariant 0 <= i <= backends.Length
        invariant var routed := Dispatch(net.script, old(Views()), 0, data, old(net.State()));
          var rest := Dispatch(net.script, Views(), i, data, net.State());
          rest.backends == routed.backends && rest.net == routed.net
        invariant net.closed == old(net.closed)
      {
        ghost var before := Views();
        var b := backends[i];
        var ok := b.SendData(net, data);
        assert Views() == before[i := before[i].(conn := b.conn)];
        if ok {
          break;
        }
        i := i + 1;
      }
    }

    /** `Upstream.Stop`: close every backend's connection, in registry order. */
    method Stop(net: Net)
      requires Valid()
      requires forall i :: 0 <= i < backends.Length ==> backends[i].conn.Some?
      modifies net
      ensures |net.closed| == |old(net.closed)| + backends.Length
      ensures net.closed[..|old(net.closed)|] == old(net.closed)
      ensures forall i :: 0 <= i < backends.Length ==> net.closed[|old(net.closed)| + i] == backends[i].conn.value
      ensures net.State() == old(net.State())
    {
      for i := 0 to backends.Length
        invariant |net.closed| == |old(net.closed)| + i
        invariant net.closed[..|old(net.closed)|] == old(net.closed)
        invariant forall k :: 0 <= k < i ==> net.closed[|old(net.closed)| + k] == backends[k].conn.value
        invariant net.State() == old(net.State())
      {
        backends[i].Stop(net);
      }
    }
  }
}
