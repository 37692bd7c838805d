/**
 The resumable push protocol of internal/mux_http over the life of one StreamEntry: the server's
 log, one sender per connection walking it under an in-flight window, clients that count, buffer
 and acknowledge, connections that may die at any moment, and the broker that trims the log.
 `fwd` and `acks` are the frames in flight on a node's current connection.
 */
module PushProtocol {
  import opened Bytes
  import opened Rings
  import opened StreamLog
  import Frames

  const DEFAULT_SEND_WINDOW := 8 * 1024 * 1024
  const RECV_BUF_CAP := 64 * 1024 * 1024

  datatype Msg = Payload(bytes: seq<byte>) | RstEof

  /** A live connection with the server's streamSendState for it. */
  datatype Conn = Conn(sendOffset: nat, ackedOffset: nat, sending: bool, fwd: seq<Msg>, acks: seq<nat>)

  /** A DATA frame the read loop is writing into the RecvBuffer, and how much of it is in. */
  datatype Writing = NotWriting | Writing(payload: seq<byte>, written: nat) {
    function Size(): nat {
      if Writing? then |payload| else 0
    }

    function Written(): nat {
      if Writing? then written else 0
    }
  }

  /** An edge node: what survives reconnects, and its connection.  `stale` are acknowledgements it
      wrote to earlier connections, which their read loops may still process. */
  datatype Node = Node(recvOffset: nat, ackedOffset: nat, buf: Pipe, writing: Writing,
                       consumed: seq<byte>, sawEof: bool, conn: Option<Conn>, stale: seq<nat>)

  const NEW_NODE := Node(0, 0, Pipe([], RECV_BUF_CAP, false, None), NotWriting, [], false, None, [])

  datatype Entry = Entry(log: seq<byte>, base: nat, closeErr: Option<IoError>)

  // ---- steps of one node ----

  datatype NodeEvent =
    | Connect            // runOnce: reopen the buffer, register with the resume offset
    | Disconnect         // either side loses or closes the connection
    | Send               // one turn of startSender
    | Take               // the client's read loop takes the next frame
    | Fill               // RecvBuffer.Write puts in what fits
    | Commit             // recvOffset.Add after a complete Write
    | SendAck            // handleData or ackLoop: sendAckWithConn
    | GetAck             // the server's read loop takes the next ACK
    | Consume(want: nat) // the local consumer reads the buffer

  predicate CanSend(e: Entry, c: Conn) {
    c.sending && (e.closeErr.Some? || |e.log| > c.sendOffset)
    && c.sendOffset - c.ackedOffset < DEFAULT_SEND_WINDOW
  }

  predicate Can(e: Entry, n: Node, ev: NodeEvent) {
    match ev
    case Connect => n.conn.None? && n.writing.NotWriting?
    case Disconnect => n.conn.Some?
    case Send => n.conn.Some? && CanSend(e, n.conn.value)
    case Take => n.conn.Some? && n.conn.value.fwd != [] && n.writing.NotWriting?
    case Fill => n.writing.Writing? && n.writing.written < |n.writing.payload|
                 && (n.buf.closed || |n.buf.contents| < n.buf.cap)
    case Commit => n.writing.Writing? && n.writing.written == |n.writing.payload|
    case SendAck => n.conn.Some? && n.recvOffset > n.ackedOffset
    case GetAck => n.conn.Some? && n.conn.value.acks != []
    case Consume(want) => n.buf.contents != [] || n.buf.closed
  }

  /** Losing the connection loses the frames to the client; acknowledgements may still arrive. */
  function Drop(n: Node): Node {
    if n.conn.None? then n else n.(stale := n.stale + n.conn.value.acks, conn := None)
  }

  /** A turn of the send loop; a read error other than EOF closes the session. */
  function Sent(e: Entry, n: Node): Node
    requires n.conn.Some?
  {
    var c := n.conn.value;
    match ReadLog(e.log, e.base, e.closeErr, c.sendOffset, Frames.DATA_CHUNK_SIZE)
    case Got(bytes) =>
      if bytes == [] then n
      else n.(conn := Some(c.(fwd := c.fwd + [Payload(bytes)], sendOffset := c.sendOffset + |bytes|)))
    case Ended(err) =>
      if err == Eof then n.(conn := Some(c.(fwd := c.fwd + [RstEof], sending := false))) else Drop(n)
    case Evicted => Drop(n)
  }

  function Taken(n: Node): Node
    requires n.conn.Some? && n.conn.value.fwd != []
  {
    var c := n.conn.value;
    var n' := n.(conn := Some(c.(fwd := c.fwd[1..])));
    match c.fwd[0]
    case Payload(bytes) => n'.(writing := Writing(bytes, 0))
    case RstEof => n'.(buf := n.buf.CloseWrite(Some(Eof)))
  }

  /** RecvBuffer.Write under the lock; on a closed buffer handleData drops the frame. */
  function Filled(n: Node): Node
    requires n.writing.Writing? && n.writing.written <= |n.writing.payload|
  {
    var w := n.writing;
    if n.buf.closed then n.(writing := NotWriting)
    else
      var avail := n.buf.cap - |n.buf.contents|;
      var chunk := if |w.payload| - w.written > avail && avail >= 0 then avail else |w.payload| - w.written;
      n.(buf := n.buf.(contents := n.buf.contents + w.payload[w.written..w.written + chunk]),
         writing := w.(written := w.written + chunk))
  }

  /** updateAck */
  function RaiseAck(c: Conn, offset: nat): (r: Conn)
    ensures r.ackedOffset >= c.ackedOffset && r.ackedOffset >= offset
    ensures r.ackedOffset == c.ackedOffset || r.ackedOffset == offset
  {
    if offset <= c.ackedOffset then c else c.(ackedOffset := offset)
  }

  function Acked(n: Node): Node
    requires n.conn.Some? && n.conn.value.acks != []
  {
    var c := n.conn.value;
    n.(conn := Some(RaiseAck(c, c.acks[0]).(acks := c.acks[1..])))
  }

  /** The consumer's Read of the buffer. */
  function Consumed(n: Node, want: nat): Node {
    var (p, r) := n.buf.Read(want, n.buf.EndError());
    match r
    case Data(bytes) => n.(buf := p, consumed := n.consumed + bytes)
    case End(err) => n.(sawEof := n.sawEof || err == Eof)
    case Blocked => n
  }

  function Next(e: Entry, n: Node, ev: NodeEvent): Node
    requires Can(e, n, ev)
  {
    match ev
    case Connect =>
      n.(buf := n.buf.(closed := false, closeErr := None), conn := Some(Conn(n.recvOffset, n.recvOffset, true, [], [])))
    case Disconnect => Drop(n)
    case Send => Sent(e, n)
    case Take => Taken(n)
    case Fill => Filled(n)
    case Commit => n.(recvOffset := n.recvOffset + |n.writing.payload|, writing := NotWriting)
    case SendAck =>
      var c := n.conn.value;
      n.(ackedOffset := n.recvOffset, conn := Some(c.(acks := c.acks + [n.recvOffset])))
    case GetAck => Acked(n)
    case Consume(want) => Consumed(n, want)
  }

  // ---- what holds of every node ----

  function FlightBytes(fwd: seq<Msg>): seq<byte> {
    if fwd == [] then [] else (if fwd[0].Payload? then fwd[0].bytes else []) + FlightBytes(fwd[1..])
  }

  lemma {:induction false} FlightBytesAppend(fwd: seq<Msg>, m: Msg)
    ensures FlightBytes(fwd + [m]) == FlightBytes(fwd) + if m.Payload? then m.bytes else []
  {
    if fwd == [] {
      assert fwd + [m] == [m];
      assert FlightBytes([m]) == (if m.Payload? then m.bytes else []) + FlightBytes([]);
    } else {
      assert (fwd + [m])[1..] == fwd[1..] + [m];
      FlightBytesAppend(fwd[1..], m);
    }
  }

  /** Exactly once: the bytes ever put into the RecvBuffer are the log's first recvOffset bytes,
      plus the written part of the frame being written. */
  ghost predicate Received(log: seq<byte>, n: Node) {
    var w := n.writing;
    && w.Written() <= w.Size() && n.recvOffset + w.Size() <= |log|
    && (w.Writing? ==> w.payload == log[n.recvOffset..n.recvOffset + |w.payload|])
    && n.consumed + n.buf.contents == log[..n.recvOffset + w.Written()]
    && n.buf.cap == RECV_BUF_CAP && |n.buf.contents| <= n.buf.cap
  }

  /** The offset chain of a live connection: what is in flight is the log from where the client
      is to where the sender is, and the unacknowledged part stays within the window. */
  ghost predicate InFlight(log: seq<byte>, n: Node) {
    n.conn.Some? ==>
      var c, from := n.conn.value, n.recvOffset + n.writing.Size();
      && from <= c.sendOffset <= |log| && FlightBytes(c.fwd) == log[from..c.sendOffset]
      && c.ackedOffset <= n.recvOffset
      && c.sendOffset - c.ackedOffset <= DEFAULT_SEND_WINDOW + Frames.DATA_CHUNK_SIZE - 1
  }

  ghost predicate Ascending(lo: nat, acks: seq<nat>, hi: nat) {
    && (forall i | 0 <= i < |acks| :: lo <= acks[i] <= hi)
    && (forall i, j | 0 <= i < j < |acks| :: acks[i] <= acks[j])
  }

  function LastAck(c: Conn): nat {
    if c.acks == [] then c.ackedOffset else c.acks[|c.acks| - 1]
  }

  /** Acknowledgements in flight climb from the server's acked offset towards recvOffset, and the
      last one the server knows or will get is at least what the client believes acknowledged. */
  ghost predicate AckChain(n: Node) {
    && n.ackedOffset <= n.recvOffset
    && (forall i | 0 <= i < |n.stale| :: n.stale[i] <= n.recvOffset)
    && (n.conn.Some? ==> Ascending(n.conn.value.ackedOffset, n.conn.value.acks, n.recvOffset)
                         && n.ackedOffset <= LastAck(n.conn.value))
  }

  ghost predicate CleanlyClosed(e: Entry) {
    e.closeErr == Some(Eof)
  }

  ghost predicate OnlyLast(fwd: seq<Msg>) {
    forall i | 0 <= i < |fwd| - 1 :: fwd[i].Payload?
  }

  /** EOF reaches a client only behind the whole of a cleanly closed log. */
  ghost predicate EofLast(e: Entry, n: Node) {
    && (n.conn.Some? ==>
          var c := n.conn.value;
          OnlyLast(c.fwd) && (c.fwd != [] && c.fwd[|c.fwd| - 1].RstEof? ==>
                                !c.sending && c.sendOffset == |e.log| && CleanlyClosed(e))
          && (n.buf.closed ==> c.fwd == [] && !c.sending)
          && (!c.sending ==> n.buf.closed || (c.fwd != [] && c.fwd[|c.fwd| - 1].RstEof?)))
    && (n.buf.closed <==> n.buf.closeErr.Some?)
    && (n.buf.closed ==> n.buf.closeErr == Some(Eof) && CleanlyClosed(e)
                         && n.writing.NotWriting? && n.recvOffset == |e.log|)
    && (n.sawEof ==> CleanlyClosed(e) && n.consumed == e.log)
  }

  ghost predicate NodeInv(e: Entry, n: Node) {
    Received(e.log, n) && InFlight(e.log, n) && AckChain(n) && EofLast(e, n)
  }

  lemma NewNodeInv(e: Entry)
    ensures NodeInv(e, NEW_NODE)
  {
    assert e.log[..0] == [];
  }

  lemma ConnectKeeps(e: Entry, n: Node)
    requires NodeInv(e, n) && Can(e, n, Connect)
    ensures NodeInv(e, Next(e, n, Connect))
  {
    assert e.log[n.recvOffset..n.recvOffset] == [];
  }

  lemma DropKeeps(e: Entry, n: Node)
    requires NodeInv(e, n)
    ensures NodeInv(e, Drop(n))
  {
  }

  lemma SendKeeps(e: Entry, n: Node)
    requires NodeInv(e, n) && Can(e, n, Send)
    ensures NodeInv(e, Next(e, n, Send))
  {
    hide NodeInv, Drop;
    match ReadLog(e.log, e.base, e.closeErr, n.conn.value.sendOffset, Frames.DATA_CHUNK_SIZE)
    case Got(bytes) =>
      if bytes != [] {
        SendDataKeeps(e, n, bytes);
      }
    case Ended(err) =>
      if err == Eof {
        SendEofKeeps(e, n);
      } else {
        DropKeeps(e, n);
      }
    case Evicted =>
      DropKeeps(e, n);
  }

  lemma SendDataKeeps(e: Entry, n: Node, bytes: seq<byte>)
    requires NodeInv(e, n) && Can(e, n, Send) && bytes != []
    requires Got(bytes) == ReadLog(e.log, e.base, e.closeErr, n.conn.value.sendOffset, Frames.DATA_CHUNK_SIZE)
    ensures var c := n.conn.value;
            NodeInv(e, n.(conn := Some(c.(fwd := c.fwd + [Payload(bytes)], sendOffset := c.sendOffset + |bytes|))))
  {
    SendDataExtends(e, n, bytes);
    hide FlightBytes, Ascending, InFlight;
  }

  lemma SendDataExtends(e: Entry, n: Node, bytes: seq<byte>)
    requires InFlight(e.log, n) && Can(e, n, Send) && bytes != []
    requires Got(bytes) == ReadLog(e.log, e.base, e.closeErr, n.conn.value.sendOffset, Frames.DATA_CHUNK_SIZE)
    ensures var c := n.conn.value;
            InFlight(e.log, n.(conn := Some(c.(fwd := c.fwd + [Payload(bytes)], sendOffset := c.sendOffset + |bytes|))))
  {
    hide FlightBytes;
    var c := n.conn.value;
    FlightBytesAppend(c.fwd, Payload(bytes));
    SliceJoin(e.log, n.recvOffset + n.writing.Size(), c.sendOffset, c.sendOffset + |bytes|);
  }

  lemma SendEofKeeps(e: Entry, n: Node)
    requires NodeInv(e, n) && Can(e, n, Send)
    requires Ended(Eof) == ReadLog(e.log, e.base, e.closeErr, n.conn.value.sendOffset, Frames.DATA_CHUNK_SIZE)
    ensures var c := n.conn.value;
            NodeInv(e, n.(conn := Some(c.(fwd := c.fwd + [RstEof], sending := false))))
  {
    hide FlightBytes, Ascending;
    var c := n.conn.value;
    FlightBytesAppend(c.fwd, RstEof);
    assert FlightBytes(c.fwd) + [] == FlightBytes(c.fwd);
  }

  lemma SliceJoin(s: seq<byte>, i: nat, j: nat, k: nat)
    requires i <= j <= k <= |s|
    ensures s[i..j] + s[j..k] == s[i..k]
  {
  }

  lemma TakeKeeps(e: Entry, n: Node)
    requires NodeInv(e, n) && Can(e, n, Take)
    ensures NodeInv(e, Next(e, n, Take))
  {
    hide NodeInv;
    match n.conn.value.fwd[0]
    case Payload(bytes) => TakeDataKeeps(e, n, bytes);
    case RstEof => TakeEofKeeps(e, n);
  }

  lemma TakeDataKeeps(e: Entry, n: Node, bytes: seq<byte>)
    requires NodeInv(e, n) && Can(e, n, Take) && n.conn.value.fwd[0] == Payload(bytes)
    ensures NodeInv(e, Taken(n))
  {
    TakeDataMoves(e.log, n, bytes);
    TailOnlyLast(n.conn.value.fwd);
    hide Ascending, Received, InFlight, FlightBytes, OnlyLast;
  }

  /** The head of the frames in flight is the next piece of the log. */
  lemma TakeDataMoves(log: seq<byte>, n: Node, bytes: seq<byte>)
    requires Received(log, n) && InFlight(log, n) && n.writing.NotWriting?
    requires n.conn.Some? && n.conn.value.fwd != [] && n.conn.value.fwd[0] == Payload(bytes)
    ensures Received(log, Taken(n)) && InFlight(log, Taken(n))
  {
    var c := n.conn.value;
    assert FlightBytes(c.fwd) == bytes + FlightBytes(c.fwd[1..]);
    SplitSlice(log, n.recvOffset, c.sendOffset, bytes, FlightBytes(c.fwd[1..]));
    hide FlightBytes;
  }

  /** If a slice is a + b, then a and b are the two parts of the slice. */
  lemma SplitSlice(s: seq<byte>, i: nat, k: nat, a: seq<byte>, b: seq<byte>)
    requires i <= k <= |s| && s[i..k] == a + b
    ensures i + |a| <= k && a == s[i..i + |a|] && b == s[i + |a|..k]
  {
    assert |s[i..k]| == |a| + |b|;
    SliceOfSlice(s, i, k, 0, |a|);
    SliceOfSlice(s, i, k, |a|, |a| + |b|);
    assert (a + b)[..|a|] == a && (a + b)[|a|..|a| + |b|] == b;
    assert s[i..k][0..|a|] == s[i..k][..|a|];
  }

  lemma TailOnlyLast(fwd: seq<Msg>)
    requires OnlyLast(fwd) && fwd != []
    ensures OnlyLast(fwd[1..])
    ensures fwd[1..] != [] ==> fwd[1..][|fwd| - 2] == fwd[|fwd| - 1]
    ensures fwd[0].RstEof? ==> fwd[1..] == []
  {
  }

  lemma TakeEofKeeps(e: Entry, n: Node)
    requires NodeInv(e, n) && Can(e, n, Take) && n.conn.value.fwd[0] == RstEof
    ensures NodeInv(e, Taken(n))
  {
    var c := n.conn.value;
    TailOnlyLast(c.fwd);
    assert FlightBytes(c.fwd) == [] + FlightBytes(c.fwd[1..]);
    assert |e.log[n.recvOffset..c.sendOffset]| == 0;
    hide Ascending, FlightBytes, OnlyLast;
  }

  lemma FillReceives(log: seq<byte>, n: Node)
    requires Received(log, n) && n.writing.Writing? && !n.buf.closed
    ensures Received(log, Filled(n)) && Filled(n).writing.Size() == n.writing.Size()
  {
    var w, n' := n.writing, Filled(n);
    var at, to := n.recvOffset + w.written, n.recvOffset + n'.writing.written;
    SliceOfSlice(log, n.recvOffset, n.recvOffset + |w.payload|, w.written, n'.writing.written);
    PrefixGrows(log, n.consumed, n.buf.contents, at, to);
  }

  /** The next piece of the log behind a prefix gives the longer prefix. */
  lemma PrefixGrows(log: seq<byte>, a: seq<byte>, b: seq<byte>, at: nat, to: nat)
    requires at <= to <= |log| && a + b == log[..at]
    ensures a + (b + log[at..to]) == log[..to]
  {
    assert a + (b + log[at..to]) == (a + b) + log[at..to];
  }

  lemma FillKeeps(e: Entry, n: Node)
    requires NodeInv(e, n) && Can(e, n, Fill)
    ensures NodeInv(e, Next(e, n, Fill))
  {
    hide Ascending, FlightBytes, OnlyLast, Received;
    FillReceives(e.log, n);
  }

  lemma CommitKeeps(e: Entry, n: Node)
    requires NodeInv(e, n) && Can(e, n, Commit)
    ensures NodeInv(e, Next(e, n, Commit))
  {
    hide FlightBytes, OnlyLast;
  }

  lemma SendAckKeeps(e: Entry, n: Node)
    requires NodeInv(e, n) && Can(e, n, SendAck)
    ensures NodeInv(e, Next(e, n, SendAck))
  {
    hide FlightBytes, OnlyLast;
  }

  lemma GetAckKeeps(e: Entry, n: Node)
    requires NodeInv(e, n) && Can(e, n, GetAck)
    ensures NodeInv(e, Next(e, n, GetAck))
    ensures n.conn.value.ackedOffset <= Next(e, n, GetAck).conn.value.ackedOffset == n.conn.value.acks[0]
  {
    hide NodeInv, RaiseAck;
    AckedKeeps(e, n);
  }

  lemma AckedKeeps(e: Entry, n: Node)
    requires NodeInv(e, n) && n.conn.Some? && n.conn.value.acks != []
    ensures NodeInv(e, Acked(n))
    ensures n.conn.value.ackedOffset <= Acked(n).conn.value.ackedOffset == n.conn.value.acks[0]
  {
    AckedKeepsChain(n);
    hide AckChain, FlightBytes, OnlyLast;
  }

  lemma AckedKeepsChain(n: Node)
    requires AckChain(n) && n.conn.Some? && n.conn.value.acks != []
    ensures AckChain(Acked(n)) && Acked(n).conn.value.ackedOffset == n.conn.value.acks[0]
    ensures n.conn.value.ackedOffset <= n.conn.value.acks[0] <= n.recvOffset
  {
    AscendingTail(n.conn.value.ackedOffset, n.conn.value.acks, n.recvOffset);
    hide Ascending;
  }

  lemma AscendingTail(lo: nat, acks: seq<nat>, hi: nat)
    requires Ascending(lo, acks, hi) && acks != []
    ensures lo <= acks[0] <= hi && Ascending(acks[0], acks[1..], hi)
    ensures acks[1..] != [] ==> acks[1..][|acks| - 2] == acks[|acks| - 1]
  {
  }

  lemma ConsumeKeeps(e: Entry, n: Node, want: nat)
    requires NodeInv(e, n) && Can(e, n, Consume(want))
    ensures NodeInv(e, Next(e, n, Consume(want)))
    ensures n.consumed <= Next(e, n, Consume(want)).consumed
  {
    hide NodeInv;
    ConsumedKeeps(e, n, want);
  }

  lemma ConsumedKeeps(e: Entry, n: Node, want: nat)
    requires NodeInv(e, n)
    ensures NodeInv(e, Consumed(n, want)) && n.consumed <= Consumed(n, want).consumed
  {
    ConsumedReceives(e.log, n, want);
    ConsumedEof(e, n, want);
    hide Received, EofLast, FlightBytes, Ascending;
  }

  lemma ConsumedEof(e: Entry, n: Node, want: nat)
    requires Received(e.log, n) && EofLast(e, n)
    ensures EofLast(e, Consumed(n, want))
  {
    ConsumedReceives(e.log, n, want);
    assert n.buf.closed ==> e.log[..|e.log|] == e.log;
    hide Received, OnlyLast;
  }

  lemma ConsumedReceives(log: seq<byte>, n: Node, want: nat)
    requires Received(log, n)
    ensures Received(log, Consumed(n, want))
    ensures n.consumed <= Consumed(n, want).consumed
    ensures n.buf.contents == [] ==> n.consumed == log[..n.recvOffset + n.writing.Written()]
  {
    if n.buf.contents != [] {
      var k := Min(want, |n.buf.contents|);
      assert n.consumed + n.buf.contents == (n.consumed + n.buf.contents[..k]) + n.buf.contents[k..];
    } else {
      assert n.consumed + [] == n.consumed;
    }
  }

  /** While a connection lasts, its sender's offsets never move back. */
  ghost predicate SameConnClimbs(n: Node, n': Node) {
    n.conn.Some? && n'.conn.Some? ==>
      n.conn.value.sendOffset <= n'.conn.value.sendOffset && n.conn.value.ackedOffset <= n'.conn.value.ackedOffset
  }

  lemma NodeStepKeeps(e: Entry, n: Node, ev: NodeEvent)
    requires NodeInv(e, n) && Can(e, n, ev)
    ensures NodeInv(e, Next(e, n, ev))
    ensures n.recvOffset <= Next(e, n, ev).recvOffset && n.consumed <= Next(e, n, ev).consumed
    ensures SameConnClimbs(n, Next(e, n, ev))
  {
    hide NodeInv;
    match ev
    case Connect => ConnectKeeps(e, n);
    case Disconnect => DropKeeps(e, n);
    case Send => SendKeeps(e, n);
    case Take => TakeKeeps(e, n);
    case Fill => FillKeeps(e, n);
    case Commit => CommitKeeps(e, n);
    case SendAck => SendAckKeeps(e, n);
    case GetAck => GetAckKeeps(e, n);
    case Consume(want) => ConsumeKeeps(e, n, want);
  }

  /** No lost acknowledgement stalls the sender: when nothing is in flight and the client has
      acknowledged what it received, the server's window is fully open, reconnects included. */
  lemma QuietLinkHasOpenWindow(e: Entry, n: Node)
    requires NodeInv(e, n) && n.conn.Some? && n.writing.NotWriting?
    requires n.conn.value.fwd == [] && n.conn.value.acks == [] && n.ackedOffset == n.recvOffset
    ensures n.conn.value.ackedOffset == n.conn.value.sendOffset == n.recvOffset
    ensures n.conn.value.sending && n.recvOffset < |e.log| ==> Can(e, n, Send)
  {
    assert FlightBytes([]) == [];
    assert |e.log[n.recvOffset..n.conn.value.sendOffset]| == 0;
  }

  /** A connected subscriber that has not received the whole log, or not yet seen its clean end, is
      never stuck: the sender, the frames, the buffer, the consumer or an acknowledgement can move. */
  lemma PushNoDeadlock(e: Entry, n: Node) returns (ev: NodeEvent)
    requires NodeInv(e, n) && n.conn.Some?
    requires n.recvOffset < |e.log| || (CleanlyClosed(e) && !n.buf.closed)
    ensures Can(e, n, ev) && Useful(n, ev)
  {
    hide Ascending, OnlyLast;
    var c := n.conn.value;
    if n.writing.Writing? {
      if n.writing.written == |n.writing.payload| {
        return Commit;
      }
      return if n.buf.closed || |n.buf.contents| < n.buf.cap then Fill else Consume(1);
    } else if c.fwd != [] {
      return Take;
    } else if c.acks != [] {
      return GetAck;
    } else if n.recvOffset > n.ackedOffset {
      return SendAck;
    }
    QuietLinkHasOpenWindow(e, n);
    return Send;
  }

  // ---- progress ----

  /** Steps of a lasting connection that achieve something: a read asks for bytes, and the end is
      read once. */
  ghost predicate Useful(n: Node, ev: NodeEvent) {
    match ev
    case Disconnect => false
    case Consume(want) => want > 0 && (n.buf.contents != [] || !n.sawEof)
    case _ => true
  }

  /** How far a connected node is from the end of a closed log: a byte still has to be sent,
      buffered, consumed and acknowledged, and a frame to be taken and finished. */
  ghost function Distance(log: seq<byte>, n: Node): int
    requires n.conn.Some?
  {
    var c := n.conn.value;
    3 * (|log| - c.sendOffset) + (if c.sending then 3 else 0) + 2 * |c.fwd| + (if n.writing.Writing? then 1 else 0)
    + (|log| - n.recvOffset - n.writing.Written()) + (|log| - |n.consumed|)
    + 2 * (|log| - n.ackedOffset) + |c.acks| + (if n.sawEof then 0 else 1)
  }

  lemma DistanceBounds(e: Entry, n: Node)
    requires NodeInv(e, n) && n.conn.Some?
    ensures 0 <= Distance(e.log, n)
    ensures n.conn.value.fwd == [] && n.conn.value.acks == [] && n.writing.NotWriting?
            ==> Distance(e.log, n) <= 7 * |e.log| + 4
  {
    hide FlightBytes, Ascending, OnlyLast;
    assert |n.consumed + n.buf.contents| == |e.log[..n.recvOffset + n.writing.Written()]|;
  }

  /** Once the log is cleanly closed, every useful step of a node that is not cut off by a trim
      keeps its connection and brings it strictly nearer to the end. */
  lemma UsefulProgress(e: Entry, n: Node, ev: NodeEvent)
    requires NodeInv(e, n) && n.conn.Some? && CleanlyClosed(e) && e.base <= n.recvOffset
    requires Can(e, n, ev) && Useful(n, ev)
    ensures Next(e, n, ev).conn.Some?
    ensures Distance(e.log, Next(e, n, ev)) < Distance(e.log, n)
  {
    if ev.Send? {
      SendProgress(e, n);
    } else if ev.Take? {
      TakeProgress(e, n);
    } else if ev.Consume? {
      ConsumeProgress(e, n, ev.want);
    } else {
      hide FlightBytes, Ascending, OnlyLast, InFlight, AckChain, Sent, Taken, Consumed, RaiseAck;
    }
  }

  lemma ConsumeProgress(e: Entry, n: Node, want: nat)
    requires NodeInv(e, n) && n.conn.Some? && Can(e, n, Consume(want)) && Useful(n, Consume(want))
    ensures Consumed(n, want).conn.Some?
    ensures Distance(e.log, Consumed(n, want)) < Distance(e.log, n)
  {
    hide FlightBytes, Ascending, OnlyLast, AckChain, InFlight, Received;
  }

  lemma TakeProgress(e: Entry, n: Node)
    requires NodeInv(e, n) && Can(e, n, Take)
    ensures Taken(n).conn.Some?
    ensures Distance(e.log, Taken(n)) < Distance(e.log, n)
  {
    hide FlightBytes, Ascending, OnlyLast, AckChain, InFlight, Received;
  }

  lemma SendProgress(e: Entry, n: Node)
    requires NodeInv(e, n) && n.conn.Some? && CleanlyClosed(e) && e.base <= n.recvOffset && Can(e, n, Send)
    ensures Sent(e, n).conn.Some?
    ensures Distance(e.log, Sent(e, n)) < Distance(e.log, n)
  {
    hide FlightBytes, Ascending, OnlyLast, AckChain, EofLast;
  }

  /** A node that has not delivered the whole log and its end to its consumer has a useful step. */
  lemma StuckIsDelivered(e: Entry, n: Node) returns (ev: NodeEvent)
    requires NodeInv(e, n) && n.conn.Some? && CleanlyClosed(e)
    requires !(n.sawEof && n.consumed == e.log)
    ensures Can(e, n, ev) && Useful(n, ev)
  {
    hide Ascending, OnlyLast, FlightBytes;
    if n.recvOffset < |e.log| || !n.buf.closed {
      ev := PushNoDeadlock(e, n);
    } else {
      ev := Consume(1);
    }
  }

  /** More log, or a log that ends, changes nothing that has been sent. */
  lemma GrowKeeps(e: Entry, n: Node, data: seq<byte>)
    requires NodeInv(e, n) && e.closeErr.None?
    ensures NodeInv(e.(log := e.log + data), n)
  {
    hide FlightBytes, OnlyLast, Ascending;
    var longer := e.log + data;
    var w := n.writing;
    assert longer[..n.recvOffset + w.Written()] == e.log[..n.recvOffset + w.Written()];
    var end := n.recvOffset + w.Size();
    assert w.Writing? ==> longer[n.recvOffset..end] == e.log[n.recvOffset..end];
    if n.conn.Some? {
      var from, to := n.recvOffset + w.Size(), n.conn.value.sendOffset;
      assert longer[from..to] == e.log[from..to];
    }
  }
}
