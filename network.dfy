/**
 * The network seen by the backends, reduced to scripted answers. Each
 * `Connect` (address resolution and dial together) and each `conn.Write`
 * takes the next answer of a script fixed in advance, so every property of
 * the dispatcher holds for every possible sequence of network outcomes.
 */
module Network {
  import opened Base

  /** A live TCP connection (`net.Conn`), told apart by an identity. */
  datatype Conn = Conn(id: nat)

  /** What one `Connect` meets: the address does not resolve, the dial fails, or a new connection. */
  datatype DialOutcome = Unresolvable | DialFailed | Dialed(conn: Conn)

  /** The scripted answers: the outcome of the n-th dial and of the n-th write of the run. */
  datatype Script = Script(dial: nat -> DialOutcome, write: nat -> bool)

  /** One successful write: the backend address, the connection used and the bytes. */
  datatype Delivery = Delivery(server: string, conn: Conn, data: seq<byte>)

  /** How much of the script is used up, and what reached a collector so far. */
  datatype Trace = Trace(dials: nat, writes: nat, delivered: seq<Delivery>)

  /** The trace after one more write, which delivers `d` when it succeeds. */
  function AfterWrite(t: Trace, d: Delivery, ok: bool): Trace
  {
    Trace(t.dials, t.writes + 1, if ok then t.delivered + [d] else t.delivered)
  }

  /** The network as the process sees it: scripted answers and a record of what happened. */
  class Net {
    const script: Script
    var dials: nat
    var writes: nat
    var delivered: seq<Delivery>
    var closed: seq<Conn>

    function State(): Trace
      reads this
    {
      Trace(dials, writes, delivered)
    }

    constructor (script: Script)
      ensures this.script == script
      ensures State() == Trace(0, 0, []) && closed == []
    {
      this.script := script;
      dials, writes, delivered, closed := 0, 0, [], [];
    }

    /** `net.ResolveTCPAddr` followed by `net.DialTimeout`. */
    method Dial() returns (outcome: DialOutcome)
      modifies this
      ensures outcome == script.dial(old(dials))
      ensures State() == old(State()).(dials := old(dials) + 1)
      ensures closed == old(closed)
    {
      outcome := script.dial(dials);
      dials := dials + 1;
    }

    /** `conn.Write(data)` on the connection of backend `server`. */
    method Write(server: string, conn: Conn, data: seq<byte>) returns (ok: bool)
      modifies this
      ensures ok == script.write(old(writes))
      ensures State() == AfterWrite(old(State()), Delivery(server, conn, data), ok)
      ensures closed == old(closed)
    {
      ok := script.write(writes);
      writes := writes + 1;
      if ok {
        delivered := delivered + [Delivery(server, conn, data)];
      }
    }

    /** `conn.Close()`. */
    method Close(conn: Conn)
      modifies this
      ensures closed == old(closed) + [conn]
      ensures State() == old(State())
    {
      closed := closed + [conn];
    }
  }
}
