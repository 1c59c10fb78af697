/**
 * The listener side of the relay: the cheap statsd line validator and the
 * sequential UDP read loop that forwards accepted datagrams to the
 * dispatcher's channel.
 */
module Server {
  import opened Base

  const Colon: byte := 58    // ':'
  const Pipe: byte := 124    // '|'
  const Newline: byte := 10  // '\n'

  /** Size of the buffer each UDP read goes into (`maxBuf`). */
  const MaxDatagram: nat := 4 * 1024

  /** Why a line was refused; the source turns each into an error message. */
  datatype Reason = MissingColon | MissingPipe | BadModifier(modifier: seq<byte>)

  /** `nil` or an error, as `validate` returns. */
  datatype Verdict = Accepted | Rejected(reason: Reason)

  // ---------------------------------------------------------------------
  // The validator
  // ---------------------------------------------------------------------

  /** `i` is the position of the first occurrence of `b` in `s`. */
  ghost predicate FirstAt(s: seq<byte>, b: byte, i: int) {
    0 <= i < |s| && s[i] == b && forall j :: 0 <= j < i ==> s[j] != b
  }

  /** No `b` in `s` between positions `lo` (included) and `hi` (excluded). */
  ghost predicate AbsentBetween(s: seq<byte>, b: byte, lo: int, hi: int) {
    forall j :: lo <= j < hi && 0 <= j < |s| ==> s[j] != b
  }

  /** Go's `bytes.IndexByte`: the first position of `b`, or -1 when absent (see IndexByteFindsFirst). */
  function IndexByte(s: seq<byte>, b: byte): (r: int)
    ensures -1 <= r < |s|
  {
    if s == [] then -1
    else if s[0] == b then 0
    else
      var k := IndexByte(s[1..], b);
      if k == -1 then -1 else k + 1
  }

  /** `IndexByte` answers -1 exactly when the byte is absent, and otherwise its first position. */
  lemma {:induction false} IndexByteFindsFirst(s: seq<byte>, b: byte)
    ensures IndexByte(s, b) == -1 <==> b !in s
    ensures IndexByte(s, b) != -1 ==> FirstAt(s, b, IndexByte(s, b))
  {
    if s != [] && s[0] != b {
      IndexByteFindsFirst(s[1..], b);
      assert s == [s[0]] + s[1..];
    }
  }

  /**
   * The end of the modifier: the next '|' after the first one at `pipePos`,
   * or the end of the line when there is none (see SecondPipeEndsModifier).
   */
  function SecondPipe(line: seq<byte>, pipePos: nat): (q: nat)
    requires pipePos < |line|
    ensures pipePos + 1 <= q <= |line|
  {
    var rest := IndexByte(line[pipePos + 1..], Pipe);
    if rest == -1 then |line| else rest + pipePos + 1
  }

  /** The bytes between the first '|' and `SecondPipe` hold no '|', and a '|' or the end follows. */
  lemma SecondPipeEndsModifier(line: seq<byte>, pipePos: nat)
    requires pipePos < |line|
    ensures AbsentBetween(line, Pipe, pipePos + 1, SecondPipe(line, pipePos))
    ensures SecondPipe(line, pipePos) == |line| || line[SecondPipe(line, pipePos)] == Pipe
  {
    var rest := line[pipePos + 1..];
    IndexByteFindsFirst(rest, Pipe);
    assert forall j :: pipePos + 1 <= j < |line| ==> line[j] == rest[j - pipePos - 1];
  }

  /** The modifier of a line: from after its first '|' up to its second '|'. */
  function Modifier(line: seq<byte>): (m: seq<byte>)
    requires Pipe in line
  {
    IndexByteFindsFirst(line, Pipe);
    var pipePos := IndexByte(line, Pipe);
    line[pipePos + 1 .. SecondPipe(line, pipePos)]
  }

  /** `Server.validate`: refuse a line without ':' or '|', or whose modifier is not 1 or 2 bytes long. */
  function Validate(line: seq<byte>): (v: Verdict)
  {
    var colonPos := IndexByte(line, Colon);
    if colonPos == -1 then Rejected(MissingColon)
    else
      var pipePos := IndexByte(line, Pipe);
      if pipePos == -1 then Rejected(MissingPipe)
      else
        IndexByteFindsFirst(line, Pipe);
        var modifier := Modifier(line);
        if |modifier| != 1 && |modifier| != 2 then Rejected(BadModifier(modifier))
        else Accepted
  }

  /**
   * The wire format, stated without any search: the bytes after the first '|'
   * start with `k` bytes that hold no '|' and are followed by a '|' or the end.
   */
  ghost predicate ModifierOfLength(line: seq<byte>, k: nat) {
    exists p :: FirstAt(line, Pipe, p)
      && p + 1 + k <= |line|
      && AbsentBetween(line, Pipe, p + 1, p + 1 + k)
      && (p + 1 + k == |line| || line[p + 1 + k] == Pipe)
  }

  /** A line the relay accepts: a ':' somewhere and a 1- or 2-byte modifier. */
  ghost predicate WellFormed(line: seq<byte>) {
    Colon in line && (ModifierOfLength(line, 1) || ModifierOfLength(line, 2))
  }

  /**
   * Whatever way the two '|' positions `p` and `q` are found, the modifier is
   * exactly `line[p+1..q]`, and that decides the verdict.
   */
  lemma ModifierIsBetweenPipes(line: seq<byte>, p: nat, q: nat)
    requires FirstAt(line, Pipe, p)
    requires p + 1 <= q <= |line| && AbsentBetween(line, Pipe, p + 1, q)
    requires q == |line| || line[q] == Pipe
    ensures Modifier(line) == line[p + 1 .. q]
    ensures Colon in line ==>
      Validate(line) == if q - p - 1 == 1 || q - p - 1 == 2 then Accepted else Rejected(BadModifier(line[p + 1 .. q]))
  {
    IndexByteFindsFirst(line, Pipe);
    IndexByteFindsFirst(line, Colon);
    assert IndexByte(line, Pipe) == p;
    SecondPipeEndsModifier(line, p);
    assert SecondPipe(line, p) == q;
  }

  /** The modifier length is unique, and it is the one the search finds. */
  lemma ModifierOfLengthExactly(line: seq<byte>, k: nat)
    requires Pipe in line
    ensures ModifierOfLength(line, k) <==> |Modifier(line)| == k
  {
    IndexByteFindsFirst(line, Pipe);
    var p := IndexByte(line, Pipe);
    SecondPipeEndsModifier(line, p);
    var q := SecondPipe(line, p);
    if |Modifier(line)| == k {
      assert p + 1 + k == q;
      assert FirstAt(line, Pipe, p);
    }
    if ModifierOfLength(line, k) {
      var p' :| FirstAt(line, Pipe, p')
        && p' + 1 + k <= |line|
        && AbsentBetween(line, Pipe, p' + 1, p' + 1 + k)
        && (p' + 1 + k == |line| || line[p' + 1 + k] == Pipe);
      ModifierIsBetweenPipes(line, p', p' + 1 + k);
    }
  }

  /** `validate` accepts exactly the well-formed lines. */
  lemma ValidateAcceptsWellFormed(line: seq<byte>)
    ensures Validate(line) == Accepted <==> WellFormed(line)
  {
    IndexByteFindsFirst(line, Colon);
    IndexByteFindsFirst(line, Pipe);
    if Pipe in line {
      ModifierOfLengthExactly(line, 1);
      ModifierOfLengthExactly(line, 2);
    } else {
      assert !ModifierOfLength(line, 1) && !ModifierOfLength(line, 2);
    }
  }

  /**
   * Which error `validate` returns: the ':' test comes first, then the '|'
   * test (searched from the start of the line, not after the ':'), then the
   * modifier length.
   */
  lemma ValidateRejections(line: seq<byte>)
    ensures Colon !in line ==> Validate(line) == Rejected(MissingColon)
    ensures Colon in line && Pipe !in line ==> Validate(line) == Rejected(MissingPipe)
    ensures Colon in line && Pipe in line ==>
      var m := Modifier(line);
      Validate(line) == if |m| == 1 || |m| == 2 then Accepted else Rejected(BadModifier(m))
  {
    IndexByteFindsFirst(line, Colon);
    IndexByteFindsFirst(line, Pipe);
  }

  /** Appending bytes does not move the first occurrence of a byte already present. */
  lemma IndexByteAppend(s: seq<byte>, t: seq<byte>, b: byte)
    requires b in s
    ensures IndexByte(s + t, b) == IndexByte(s, b)
  {
    IndexByteFindsFirst(s, b);
    IndexByteFindsFirst(s + t, b);
    var i := IndexByte(s, b);
    assert FirstAt(s + t, b, i);
  }

  /** The line holds a ':' and at least two '|' bytes. */
  ghost predicate HasColonAndTwoPipes(s: seq<byte>) {
    Colon in s && exists i, j :: 0 <= i < j < |s| && s[i] == Pipe && s[j] == Pipe
  }

  /**
   * Once a line holds a ':' and two '|' bytes, nothing appended after them
   * changes the verdict. (A ':' that only occurs after the second '|' does
   * count; see ColonAfterSecondPipeCounts.)
   */
  lemma TailAfterSecondPipeIrrelevant(head: seq<byte>, tail: seq<byte>)
    requires HasColonAndTwoPipes(head)
    ensures Validate(head + tail) == Validate(head)
  {
    var line := head + tail;
    IndexByteAppend(head, tail, Colon);
    IndexByteAppend(head, tail, Pipe);
    IndexByteFindsFirst(head, Pipe);
    var p := IndexByte(head, Pipe);
    SecondPipeEndsModifier(head, p);
    var q := SecondPipe(head, p);
    var i, j :| 0 <= i < j < |head| && head[i] == Pipe && head[j] == Pipe;
    assert q < |head| by {
      assert p <= i;
      assert head[j] == Pipe;
    }
    assert FirstAt(line, Pipe, p);
    ModifierIsBetweenPipes(head, p, q);
    ModifierIsBetweenPipes(line, p, q);
    assert line[p + 1 .. q] == head[p + 1 .. q];
  }

  // ---------------------------------------------------------------------
  // The UDP read loop
  // ---------------------------------------------------------------------

  /** One call of `ReadFromUDP`: a datagram, or a socket error. */
  datatype Read = Datagram(payload: seq<byte>) | ReadFailed

  /** The bytes of a datagram that fit the read buffer (`buf[:n]`). */
  function Received(payload: seq<byte>): (line: seq<byte>)
  {
    if |payload| <= MaxDatagram then payload else payload[..MaxDatagram]
  }

  /** The loop pushes a line iff it is non-empty and `validate` accepts it. */
  predicate Forwards(line: seq<byte>) {
    |line| > 0 && Validate(line) == Accepted
  }

  /**
   * What a read loop of this shape pushes for a sequence of reads: the
   * received bytes of each datagram of which `keep` holds, in arrival order,
   * up to the first read error. The UDP loop is the instance `Forwarded`;
   * the lemmas about the shape hold for every `keep`.
   */
  function Filtered(events: seq<Read>, keep: seq<byte> -> bool): seq<seq<byte>>
  {
    if events == [] then []
    else match events[0]
      case ReadFailed => []
      case Datagram(payload) =>
        var line := Received(payload);
        (if keep(line) then [line] else []) + Filtered(events[1..], keep)
  }

  /** What the UDP loop pushes onto the channel for a sequence of reads. */
  function Forwarded(events: seq<Read>): seq<seq<byte>>
  {
    Filtered(events, Forwards)
  }

  /** One step of the loop: the read at `i` decides what, if anything, is pushed before the rest. */
  lemma FilteredStep(events: seq<Read>, i: nat, keep: seq<byte> -> bool)
    requires i < |events| && events[i].Datagram?
    ensures var line := Received(events[i].payload);
      Filtered(events[i..], keep) == (if keep(line) then [line] else []) + Filtered(events[i + 1..], keep)
  {
    assert events[i..][1..] == events[i + 1..];
  }

  /** A read error ends the loop: nothing after it is pushed. */
  lemma ForwardedStopsAt(events: seq<Read>, i: nat)
    requires i < |events| && events[i].ReadFailed?
    ensures Forwarded(events[i..]) == []
  {
    assert events[i..][0] == events[i];
  }

  /** Pushing what the read at `i` decides keeps the loop's account of the whole run. */
  lemma FilteredAdvance(events: seq<Read>, i: nat, keep: seq<byte> -> bool, channel: seq<seq<byte>>, pushed: seq<seq<byte>>)
    requires i < |events| && events[i].Datagram?
    requires channel + Filtered(events[i..], keep) == Filtered(events, keep)
    requires var line := Received(events[i].payload); pushed == if keep(line) then [line] else []
    ensures (channel + pushed) + Filtered(events[i + 1..], keep) == Filtered(events, keep)
  {
    FilteredStep(events, i, keep);
    AppendAssoc(channel, pushed, Filtered(events[i + 1..], keep));
  }

  /** Concatenation regroups freely. */
  lemma AppendAssoc<T>(a: seq<T>, b: seq<T>, c: seq<T>)
    ensures a + b + c == a + (b + c)
  {
  }

  /** The sequential UDP read loop of `startUDP`, reads given in arrival order. */
  method ServeUdp(events: seq<Read>) returns (channel: seq<seq<byte>>)
    ensures channel == Forwarded(events)
  {
    channel := [];
    var i := 0;
    assert events[i..] == events;
    while i < |events|
      invariant 0 <= i <= |events|
      invariant channel + Forwarded(events[i..]) == Forwarded(events)
    {
      if events[i].ReadFailed? {
        ForwardedStopsAt(events, i);
        return;
      }
      var payload := events[i].payload;
      var n := if |payload| <= MaxDatagram then |payload| else MaxDatagram;
      var line := payload[..n];
      assert line == Received(payload);
      var pushed: seq<seq<byte>> := [];
      if n > 0 {
        var err := Validate(line);
        if err == Accepted {
          pushed := [line];
        }
      }
      FilteredAdvance(events, i, Forwards, channel, pushed);
      channel := channel + pushed;
      i := i + 1;
    }
  }

  /** No read in `events` failed. */
  ghost predicate AllReceived(events: seq<Read>) {
    forall i :: 0 <= i < |events| ==> events[i].Datagram?
  }

  /** Reads that all succeed contribute their lines in arrival order, before those of later reads. */
  lemma {:induction false} FilteredAppend(a: seq<Read>, b: seq<Read>, keep: seq<byte> -> bool)
    requires AllReceived(a)
    ensures Filtered(a + b, keep) == Filtered(a, keep) + Filtered(b, keep)
  {
    if a != [] {
      assert (a + b)[1..] == a[1..] + b;
      FilteredAppend(a[1..], b, keep);
    } else {
      assert a + b == b;
    }
  }

  /** Order is preserved: reads that all succeed contribute their lines in arrival order. */
  lemma ForwardedAppend(a: seq<Read>, b: seq<Read>)
    requires AllReceived(a)
    ensures Forwarded(a + b) == Forwarded(a) + Forwarded(b)
  {
    FilteredAppend(a, b, Forwards);
  }

  /** The first socket error ends the loop: nothing read afterwards is forwarded. */
  lemma ForwardedStopsAtReadError(a: seq<Read>, b: seq<Read>)
    requires AllReceived(a)
    ensures Forwarded(a + [ReadFailed] + b) == Forwarded(a)
  {
    FilteredAppend(a, [ReadFailed] + b, Forwards);
    assert a + [ReadFailed] + b == a + ([ReadFailed] + b);
  }

  /** A single datagram is forwarded byte for byte (no newline stripping) iff it passes. */
  lemma ForwardedOne(payload: seq<byte>)
    requires |payload| <= MaxDatagram
    ensures Forwarded([Datagram(payload)]) == if Forwards(payload) then [payload] else []
  {
    FilteredStep([Datagram(payload)], 0, Forwards);
    assert [Datagram(payload)][1..] == [];
  }

  /** `line` is what some datagram delivered before any read failed. */
  ghost predicate ReceivedBeforeFailure(events: seq<Read>, line: seq<byte>) {
    exists i :: 0 <= i < |events| && events[i].Datagram? && Received(events[i].payload) == line
      && AllReceived(events[..i])
  }

  /** Everything pushed satisfies `keep`, fits the buffer, and came from a datagram read before any error. */
  lemma {:induction false} FilteredSound(events: seq<Read>, keep: seq<byte> -> bool, k: nat)
    requires k < |Filtered(events, keep)|
    ensures keep(Filtered(events, keep)[k])
    ensures |Filtered(events, keep)[k]| <= MaxDatagram
    ensures ReceivedBeforeFailure(events, Filtered(events, keep)[k])
  {
    assert events[0].Datagram?;
    assert events[0..] == events;
    FilteredStep(events, 0, keep);
    var line := Received(events[0].payload);
    if keep(line) && k == 0 {
      assert events[..0] == [];
    } else {
      var k' := if keep(line) then k - 1 else k;
      FilteredSound(events[1..], keep, k');
      var out := Filtered(events[1..], keep)[k'];
      assert Filtered(events, keep)[k] == out;
      var i :| 0 <= i < |events[1..]| && events[1..][i].Datagram? && Received(events[1..][i].payload) == out
        && AllReceived(events[1..][..i]);
      assert events[..i + 1] == [events[0]] + events[1..][..i];
      assert events[i + 1] == events[1..][i];
    }
  }

  /**
   * Soundness: everything forwarded is a non-empty accepted line of at most
   * `MaxDatagram` bytes that some datagram delivered before any read error.
   */
  lemma ForwardedSound(events: seq<Read>, k: nat)
    requires k < |Forwarded(events)|
    ensures Forwards(Forwarded(events)[k])
    ensures |Forwarded(events)[k]| <= MaxDatagram
    ensures ReceivedBeforeFailure(events, Forwarded(events)[k])
  {
    FilteredSound(events, Forwards, k);
  }

  // ---------------------------------------------------------------------
  // Examples
  // ---------------------------------------------------------------------

  /** A counter line is accepted. */
  lemma CounterAccepted()
    ensures Validate(Ascii("a:1|c")) == Accepted
  {
    var line := Ascii("a:1|c");
    assert line[1] == Colon;
    ModifierIsBetweenPipes(line, 3, 5);
  }

  /** A two-byte type followed by a sample rate is accepted. */
  lemma SampledAccepted()
    ensures Validate(Ascii("a:1|cc|@0.1")) == Accepted
  {
    var line := Ascii("a:1|cc|@0.1");
    assert line[1] == Colon && line[6] == Pipe;
    ModifierIsBetweenPipes(line, 3, 6);
  }

  /** The '|' is searched from the start of the line, so one before the ':' is used. */
  lemma PipeBeforeColonAccepted()
    ensures Validate(Ascii("|c:")) == Accepted
  {
    var line := Ascii("|c:");
    assert line[2] == Colon;
    ModifierIsBetweenPipes(line, 0, 3);
  }

  /** A line without ':' is refused for that reason. */
  lemma NoColonRejected()
    ensures Validate(Ascii("a1c")) == Rejected(MissingColon)
  {
    var line := Ascii("a1c");
    assert forall i | 0 <= i < 3 :: line[i] != Colon;
    ValidateRejections(line);
  }

  /** A line with ':' but without '|' is refused for that reason. */
  lemma NoPipeRejected()
    ensures Validate(Ascii("a:1c")) == Rejected(MissingPipe)
  {
    var line := Ascii("a:1c");
    assert line[1] == Colon;
    assert forall i | 0 <= i < 4 :: line[i] != Pipe;
    ValidateRejections(line);
  }

  /** An empty modifier at the end of the line is refused. */
  lemma EmptyModifierRejected()
    ensures Validate(Ascii("a:1|")) == Rejected(BadModifier([]))
  {
    var line := Ascii("a:1|");
    assert line[1] == Colon;
    ModifierIsBetweenPipes(line, 3, 4);
  }

  /** An empty modifier between two '|' bytes is refused. */
  lemma DoublePipeRejected()
    ensures Validate(Ascii("a:1||")) == Rejected(BadModifier([]))
  {
    var line := Ascii("a:1||");
    assert line[1] == Colon && line[4] == Pipe;
    ModifierIsBetweenPipes(line, 3, 4);
  }

  /** A three-byte modifier is refused, and the error carries it. */
  lemma LongModifierRejected()
    ensures Validate(Ascii("a:1|ccc")) == Rejected(BadModifier(Ascii("ccc")))
  {
    var line := Ascii("a:1|ccc");
    assert line[1] == Colon;
    ModifierIsBetweenPipes(line, 3, 7);
    assert line[4..7] == Ascii("ccc");
  }

  /** A ':' after the second '|' still decides the verdict. */
  lemma ColonAfterSecondPipeCounts()
    ensures Validate(Ascii("|c|:")) == Accepted
    ensures Validate(Ascii("|c|x")) == Rejected(MissingColon)
  {
    var late := Ascii("|c|:");
    assert late[3] == Colon && late[2] == Pipe;
    ModifierIsBetweenPipes(late, 0, 2);
    var none := Ascii("|c|x");
    assert forall i | 0 <= i < 4 :: none[i] != Colon;
    ValidateRejections(none);
  }

  /** UDP does not strip the newline: it turns an accepted two-byte type into a refused line. */
  lemma TrailingNewlineRejected()
    ensures Forwarded([Datagram(Ascii("a:1|cc"))]) == [Ascii("a:1|cc")]
    ensures Forwarded([Datagram(Ascii("a:1|cc\n"))]) == []
  {
    var plain := Ascii("a:1|cc");
    assert plain[1] == Colon;
    ModifierIsBetweenPipes(plain, 3, 6);
    ForwardedOne(plain);
    var newline := Ascii("a:1|cc\n");
    assert newline[1] == Colon;
    ModifierIsBetweenPipes(newline, 3, 7);
    ForwardedOne(newline);
  }

  /** UDP forwards a one-byte type with its newline kept. */
  lemma TrailingNewlineKept()
    ensures Forwarded([Datagram(Ascii("a:1|c\n"))]) == [Ascii("a:1|c\n")]
  {
    var line := Ascii("a:1|c\n");
    assert line[1] == Colon;
    ModifierIsBetweenPipes(line, 3, 6);
    ForwardedOne(line);
  }
}
