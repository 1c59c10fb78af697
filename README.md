# statsd-ha-proxy: a verified model of the line validator and the failover dispatcher

statsd-ha-proxy is a relay for statsd metric lines. It listens on UDP and
TCP, refuses lines that do not look like statsd, and forwards the rest to
one of several downstream collectors. The collectors are listed in priority
order, and each message goes to the first collector that takes it.

This project models, in Dafny, the two parts of the relay that hold its
logic:

- **The listener** (module `Server`, `server.dfy`). `Validate` is
  `Server.validate`: it finds the first `:`, then the first `|` (searched
  from the start of the line), then the next `|`. It accepts the line only
  when the modifier between the two `|` bytes is 1 or 2 bytes long.
  `ServeUdp` is the sequential UDP read loop. It reads each datagram into a
  4096-byte buffer, drops empty and refused lines, and pushes the accepted
  bytes onto the channel unchanged, trailing newline included. It stops at
  the first socket error.
- **The upstream side** (modules `Network`, `Failover`, `Upstreams`).
  Class `Upstreams.Backend` holds one collector's connection. Its
  `Connect` and `SendData` methods change that connection. `SendData` makes
  one write on the current connection, then up to `retries - 1` rounds of
  reconnect-and-write. Class `Upstreams.Upstream` holds the registry as an
  array in list order. `Start` fills the registry and `Stop` closes every
  connection. `Schedule` is `sheduller`: it offers each message to the
  backends in index order and stops at the first success. A message that
  every backend refuses is dropped.

The network is an oracle. A `Network.Script` fixes in advance the outcome
of the n-th dial (address unresolvable, dial failed, or a new connection)
and of the n-th write. The class `Network.Net` hands out those outcomes in
order and records the deliveries and the closed connections. So every
property below holds for every possible sequence of network outcomes.
Module `Failover` states what `SendData`, one pass of the scheduler and a
whole run of the scheduler do, as functions of the backend values and the
script. The methods of the classes are proved equal to those functions. The
lemmas in `Failover` then prove the failover rules about the functions.

The model follows the code, and the code differs from the project's design
description in several places:

- The UDP loop does not strip the trailing newline, so a `\n` counts in the
  modifier length (`TrailingNewlineRejected`, `TrailingNewlineKept`).
- `Connect` is not idempotent. It dials again even when a connection
  exists. A failed dial sets the connection to nil.
- There is no watchdog and no active-backend reference. Failover happens
  per message inside `sheduller`.
- A message that every backend refuses is dropped, not retried.

`Validate` is a function, so it cannot change its input and has no other
effect.

## Model

| member | source | states |
|---|---|---|
| Server.Validate | server/server.go:167-189 | the validator itself; what it means is stated by `ValidateAcceptsWellFormed` and `ValidateRejections` below |
| Server.Modifier | server/server.go:173-183 | the bytes between the first pipe and the next pipe or the end; `ModifierIsBetweenPipes` and `ModifierOfLengthExactly` state what it is without any search |
| Server.IndexByte | server/server.go:169 | the search answers -1 or a position inside the line |
| Server.IndexByteFindsFirst | server/server.go:169-176 | the search answers -1 exactly when the byte is absent, otherwise the position of its first occurrence |
| Server.SecondPipe | server/server.go:177-182 | the end of the modifier satisfies `pipePos + 1 <= q <= len(line)`, so the slice is always in bounds |
| Server.SecondPipeEndsModifier | server/server.go:177-183 | no pipe lies between the first pipe and the end of the modifier, and a pipe or the end of the line follows it |
| Server.ModifierIsBetweenPipes | server/server.go:173-188 | for the first pipe at `p` and the next pipe (or the end) at `q`, the modifier is exactly `line[p+1..q]`, and with a `:` present the verdict is acceptance iff `q - p - 1` is 1 or 2 |
| Server.ModifierOfLengthExactly | server/server.go:173-185 | the modifier has length `k` iff the line, read without any search, has a pipe-free run of `k` bytes after its first pipe, ended by a pipe or the end |
| Server.ValidateAcceptsWellFormed | server/server.go:167-189 | `validate` accepts a line iff it holds a `:` and its modifier is 1 or 2 bytes long (both directions) |
| Server.ValidateRejections | server/server.go:167-188 | no `:` gives the missing-colon error first; a `:` but no pipe gives the missing-pipe error; otherwise the verdict is decided by the modifier length alone, and the error carries the modifier |
| Server.IndexByteAppend | server/server.go:169-173 | appending bytes does not move the first occurrence of a byte already present |
| Server.TailAfterSecondPipeIrrelevant | server/server.go:169-183 | once a line holds a `:` and two pipe bytes, bytes appended after them do not change the verdict |
| Server.Received | server/server.go:74-81 | the bytes a read into the 4096-byte buffer keeps; `ForwardedSound` states that every forwarded line fits the buffer |
| Server.Filtered | server/server.go:73-92 | the shape of the read loop for any line filter: each datagram's received bytes when the filter holds, up to the first read error; its meaning is stated by `FilteredAppend` and `FilteredSound` |
| Server.Forwarded | server/server.go:73-92 | what the UDP loop pushes: the loop shape with the filter "non-empty and accepted"; `ServeUdp` is proved equal to it, and `ForwardedAppend`, `ForwardedStopsAtReadError`, `ForwardedOne` and `ForwardedSound` state its meaning |
| Server.ServeUdp | server/server.go:73-92 | the channel after the loop is exactly `Forwarded(events)`: the truncated, non-empty, accepted datagrams in arrival order, up to the first read error |
| Server.FilteredStep | server/server.go:74-91 | one pass of the loop pushes the received line when the filter holds of it, and nothing otherwise |
| Server.ForwardedStopsAt | server/server.go:75-79 | nothing is pushed from a read error onwards |
| Server.FilteredAdvance | server/server.go:80-91 | pushing what one datagram decides keeps the loop's account of the whole run |
| Server.FilteredAppend | server/server.go:73-92 | for any filter, reads that all succeed contribute their lines in arrival order, before those of later reads |
| Server.ForwardedAppend | server/server.go:73-92 | reads that all succeed contribute their lines in arrival order, before those of later reads |
| Server.ForwardedStopsAtReadError | server/server.go:75-79 | a read error ends the loop: nothing read after it is forwarded |
| Server.ForwardedOne | server/server.go:80-88 | a single datagram is forwarded byte for byte, newline kept, iff it is non-empty and accepted |
| Server.FilteredSound | server/server.go:74-88 | for any filter, every pushed line satisfies the filter, is at most 4096 bytes, and is the received bytes of a datagram that arrived before any read error |
| Server.ForwardedSound | server/server.go:74-88 | every forwarded line is non-empty, accepted, at most 4096 bytes, and the received bytes of a datagram that arrived before any read error |
| Server.CounterAccepted | server/server.go:167-189 | a counter line with a one-byte type is accepted |
| Server.SampledAccepted | server/server.go:177-188 | a counter with a two-byte type and a sample rate after a second pipe is accepted: the modifier stops at the second pipe |
| Server.PipeBeforeColonAccepted | server/server.go:169-176 | a line whose pipe comes before its colon is accepted, because the pipe search starts at the beginning of the line |
| Server.NoColonRejected | server/server.go:169-172 | a line without `:` is refused for that reason |
| Server.NoPipeRejected | server/server.go:173-176 | a line with `:` but no pipe is refused for that reason |
| Server.EmptyModifierRejected | server/server.go:177-187 | a line ending in its first pipe is refused with an empty modifier |
| Server.DoublePipeRejected | server/server.go:177-187 | a line with two adjacent pipes is refused with an empty modifier |
| Server.LongModifierRejected | server/server.go:184-187 | a three-byte modifier is refused, and the error carries it |
| Server.ColonAfterSecondPipeCounts | server/server.go:169-172 | a `:` after the second pipe still decides the verdict, so bytes after the second pipe can matter when no `:` comes before them |
| Server.TrailingNewlineRejected | server/server.go:80-88 | over UDP, a line with a two-byte type is forwarded but the same line with a trailing newline is dropped, because the newline lengthens the modifier |
| Server.TrailingNewlineKept | server/server.go:80-88 | over UDP, a counter with a one-byte type and a trailing newline is forwarded with its newline |
| Network.Net.Dial | upstreams/upstreams.go:80-85 | address resolution and dial together take the next scripted dial outcome and use up one dial |
| Network.Net.Write | upstreams/upstreams.go:92 | a write takes the next scripted write outcome and records a delivery (a successful write) exactly when it succeeds; a failed write records nothing |
| Network.Net.Close | upstreams/upstreams.go:111 | closing records the connection, and nothing else changes |
| Upstreams.Wrap64 | upstreams/upstreams.go:42-43 | the result agrees with the exact integer modulo 2^64 and equals it when it fits in `int64` |
| Upstreams.Millis | upstreams/upstreams.go:42-43 | milliseconds to a `time.Duration`: one million times the input, wrapped into `int64`, and exact for inputs up to about 292 years |
| Upstreams.Backend.constructor | upstreams/upstreams.go:40-45 | a new backend has the given address, timings and retries, and no connection |
| Upstreams.Backend.Connect | upstreams/upstreams.go:75-87 | an unresolvable address is an error and leaves the connection unchanged; a failed dial is an error and clears it; a successful dial replaces it; success iff the dial succeeded; one dial used |
| Upstreams.Backend.SendData | upstreams/upstreams.go:90-108 | the result, the connection left behind and the network afterwards are exactly `Failover.Send` of the backend before the call |
| Upstreams.Backend.Stop | upstreams/upstreams.go:110-112 | the backend's connection is closed, and nothing else changes |
| Upstreams.Upstream.constructor | upstreams/upstreams.go:24-34 | the configuration is stored and the registry is empty |
| Upstreams.Upstream.Start | upstreams/upstreams.go:36-55 | the registry has one fresh, distinct backend per configured address, in list order; each has its address, both timings scaled from milliseconds, the configured retries, and the connection its one dial gave; one dial per backend |
| Upstreams.Upstream.Schedule | upstreams/upstreams.go:63-73 | the backends and the network after the run are exactly `Failover.DispatchAll` of the registry and network before it |
| Upstreams.Upstream.Offer | upstreams/upstreams.go:65-71 | the backends and the network after one message are exactly `Failover.Dispatch` from backend 0 |
| Upstreams.Upstream.Stop | upstreams/upstreams.go:57-61 | every backend's connection is closed once, in registry order, and nothing else changes |
| Failover.Reconnected | upstreams/upstreams.go:80-85 | the connection `Connect` leaves; `Upstreams.Backend.Connect` states its three cases |
| Failover.Retry | upstreams/upstreams.go:97-106 | the retry loop of `SendData` as a function of the script; `RetryFacts` and `RetryWritesAfterEachDial` state its meaning |
| Failover.Send | upstreams/upstreams.go:90-108 | `SendData` as a function of the backend and the script; `SendFastPath`, `SendAttempts`, `SendFailsIffAllWritesFail` and `SendDelivers` state its meaning, and `Upstreams.Backend.SendData` is proved equal to it |
| Failover.DialedIn | upstreams/upstreams.go:99-100 | the number of scripted dials in a range that give a connection, each of which `SendData` follows with a write |
| Failover.RetryFacts | upstreams/upstreams.go:97-107 | the retry loop makes at most its budget of reconnects, and all of them when it fails; at most one write per reconnect; success iff one of its writes succeeds, which is then its last write; on success exactly one successful write, over the connection it keeps; none on failure |
| Failover.RetryWritesAfterEachDial | upstreams/upstreams.go:97-106 | the retry loop writes exactly once after each reconnect that gives a connection, and never after one that does not |
| Failover.SendFastPath | upstreams/upstreams.go:91-96 | with a connection whose first write succeeds, `SendData` succeeds at once: no reconnect, one write, connection kept, one successful write |
| Failover.SendAttempts | upstreams/upstreams.go:90-106 | `SendData` makes at most `max(0, retries-1)` reconnects, exactly that many when it fails, and writes once on its connection, if any, plus exactly once after each reconnect that gives a connection; with `retries <= 1` it makes only the initial write, or none without a connection |
| Failover.SendFailsIffAllWritesFail | upstreams/upstreams.go:90-107 | `SendData` writes once on its connection, if any, and once after each successful reconnect, and returns an error iff all of those writes failed; on success its last write is the one that worked |
| Failover.SendDelivers | upstreams/upstreams.go:90-108 | on success, `SendData` makes exactly one successful write of the data, to this backend over the connection it keeps; on failure it makes none |
| Failover.Dispatch | upstreams/upstreams.go:65-71 | the inner loop of `sheduller` as a function; `DispatchOrder`, `DispatchFirstSuccess` and `DispatchPayloads` state its meaning, and `Upstreams.Upstream.Offer` is proved equal to it |
| Failover.DispatchAll | upstreams/upstreams.go:64-72 | the outer loop of `sheduller` as a function; `DispatchAllDelivers` and `AllTakenInOrder` state its meaning, and `Upstreams.Upstream.Schedule` is proved equal to it |
| Failover.DispatchOrder | upstreams/upstreams.go:65-71 | backends are asked in ascending index order and the loop stops at the first success; when all fail every backend was asked; only connections change, and no backend after the winner is touched |
| Failover.DispatchFirstSuccess | upstreams/upstreams.go:65-71 | the winner's write is the only successful write of the message, made once, over the winner's connection; when all fail no write of the message succeeded |
| Failover.DispatchPayloads | upstreams/upstreams.go:64-71 | one message adds itself to the payloads of successful writes exactly when some backend took it |
| Failover.DispatchAllDelivers | upstreams/upstreams.go:64-72 | over a run, the payloads of successful writes grow by exactly the messages some backend took, each once, in channel order; a refused message is dropped and the next one processed; the registry keeps its order and configuration |
| Failover.AllTakenInOrder | upstreams/upstreams.go:64-72 | when every message found a backend, the successful writes carry the channel's messages exactly, in order |

## Left out

- The TCP accept loop and `handleTCP` (server/server.go:97-154) start a goroutine per connection and per line, so their order depends on scheduling. They are not part of this model.
- `getSockBufferMaxSize` (server/server.go:191-208) reads `/proc`. It is file I/O and not modelled.
- The graphite counters (`statsUDPBytes`, `statsUDPCounter` and the TCP ones) are metrics side effects and not modelled.
- Logging is not modelled. Log calls only write messages, and the model keeps each verdict or error as a value instead.
- Socket setup in `startUDP` (address resolution, `ListenUDP`, closing the socket) is I/O. The model starts from the sequence of read results.
- Server.ServeUdp: the channel is an unbounded sequence, so a full channel blocking the loop is not modelled. A datagram longer than 4096 bytes is truncated, as a read into a 4096-byte buffer does.
- `Server.Reload` and `Server.Stop` return nil and do nothing. They are not modelled.
- Server.TailAfterSecondPipeIrrelevant: requires a `:` and two `|` bytes before the appended bytes, because the `:` search covers the whole line. `ColonAfterSecondPipeCounts` shows that a late `:` changes the verdict.
- Network.Net.Write: a write is all or nothing. Go's `conn.Write` can write part of the data and still return an error. `SendData` then writes the whole line again on a new connection, or the scheduler tries the next backend, so a collector can receive a partial line before a full one. The "exactly once" statements about deliveries count successful writes only, and do not cover the bytes of failed writes.
- Real networking is replaced by the script in `Network`. Address resolution and the dial are one outcome, because `Connect` only tells an unresolvable address (connection kept) from a failed dial (connection cleared).
- `time.Sleep` between retries and the dial timeout are not modelled. There is no clock; the timings are kept only as values.
- Upstreams.Upstream.Start: `go u.sheduller()` is not modelled as a concurrent goroutine. `Schedule` runs the scheduler separately over a finite prefix of the channel's messages.
- Upstreams.Upstream.Schedule: the channel is given as a finite sequence. Waiting on an empty channel and a channel that never closes are not modelled.
- Upstreams.Backend.Stop: Go's `Close` on a nil connection panics. The model requires a connection instead of modelling the panic, and so does `Upstreams.Upstream.Stop`.
- The `activeBackend` field (upstreams/upstreams.go:26) is never read or written, so it is not modelled. The `Log` field and the package logger are left out with logging.
- cmd/statsd-ha-proxy/main.go and cmd/statsd-ha-proxy/config.go are not part of this model. They hold flag parsing, signal handling, YAML loading and the wiring of the two halves.
