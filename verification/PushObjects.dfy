/**
 The objects behind the push protocol's steps: the server's per-connection send state and one turn
 of its send loop, the client's receive state, and the broker's acknowledgement table.
 */
module PushObjects {
  import opened Bytes
  import opened Rings
  import opened StreamLog
  import opened PushProtocol
  import opened PushSystem
  import Frames

  const ACK_EVERY_BYTES := 1024 * 1024
  const BUFFER_MAX_RETAIN := 512 * 1024 * 1024
  const EVICT_LAG_THRESHOLD := BUFFER_MAX_RETAIN * 8 / 10

  /** The frames a push connection has been given, in order.  It may break after any number of data
      frames, and then stays broken. */
  class PushConn {
    var data: seq<Msg>
    var acks: seq<nat>
    const lasts: Option<nat>  // how many data frames it carries; None if it never breaks

    constructor (lasts: Option<nat>)
      ensures data == [] && acks == [] && this.lasts == lasts
    {
      data, acks, this.lasts := [], [], lasts;
    }

    predicate Broken()
      reads this
    {
      lasts.Some? && |data| >= lasts.value
    }

    method WriteFrame(m: Msg) returns (ok: bool)
      modifies `data
      ensures ok <==> !old(Broken())
      ensures data == if ok then old(data) + [m] else old(data)
    {
      ok := !Broken();
      if ok {
        data := data + [m];
      }
    }
  }

  datatype Turn = Sending | Waiting | Finished | SessionClosed

  class StreamSendState {
    var sendOffset: nat
    var ackedOffset: nat
    var evicted: bool
    const window: nat := DEFAULT_SEND_WINDOW

    constructor (resumeOffset: nat)
      ensures sendOffset == ackedOffset == resumeOffset && !evicted
    {
      sendOffset, ackedOffset, evicted := resumeOffset, resumeOffset, false;
    }

    /** updateAck's compare-and-swap loop; `others` are acknowledgements that other goroutines store
        meanwhile.  The acknowledged offset never moves back, ends at or above all of them, and is
        one that somebody acknowledged. */
    method UpdateAck(offset: int, others: seq<nat>) returns (used: nat)
      modifies `ackedOffset
      ensures used <= |others|
      ensures ackedOffset >= old(ackedOffset) && ackedOffset >= offset
      ensures forall i | 0 <= i < used :: ackedOffset >= others[i]
      ensures ackedOffset == old(ackedOffset) || ackedOffset == offset || ackedOffset in others[..used]
    {
      used := 0;
      while true
        invariant used <= |others| && ackedOffset >= old(ackedOffset)
        invariant forall i | 0 <= i < used :: ackedOffset >= others[i]
        invariant ackedOffset == old(ackedOffset) || ackedOffset in others[..used]
        decreases |others| - used
      {
        var was := ackedOffset;
        if offset <= was {
          return;
        }
        var late: bool := *;
        if late && used < |others| {
          assert others[..used + 1] == others[..used] + [others[used]];
          if others[used] > ackedOffset {
            ackedOffset := others[used];
          }
          used := used + 1;
        }
        if ackedOffset == was {
          ackedOffset := offset;
          return;
        }
      }
    }

    method Evict()
      modifies `evicted
      ensures evicted
    {
      evicted := true;
    }

    /** The object is the server's side of the node's connection; `gone` has left the wire already. */
    ghost predicate Serves(n: Node, conn: PushConn, gone: seq<Msg>)
      reads this, conn
    {
      && n.conn.Some? && n.conn.value.sending && conn.data == gone + n.conn.value.fwd
      && n.conn.value.sendOffset == sendOffset && n.conn.value.ackedOffset == ackedOffset
    }

    /** One turn of startSender: wait for data and window, read a chunk at the send offset, write it,
        advance.  A turn waits exactly when the protocol's Send step is not enabled; otherwise it
        leaves the connection and the send state as that step does.  The session is closed instead
        when the step loses the connection, when a write fails, or after an eviction. */
    method SendTurn(log: StreamBuffer, conn: PushConn, ghost n: Node, ghost gone: seq<Msg>) returns (t: Turn)
      requires log.Valid() && Serves(n, conn, gone)
      modifies `sendOffset, conn`data
      ensures var e := Entry(log.log, log.baseOffset, log.closeErr);
              && (t.Waiting? <==> !evicted && !Can(e, n, Send))
              && (t.Waiting? || t.SessionClosed? ==> sendOffset == old(sendOffset) && conn.data == old(conn.data))
              && (t.Sending? || t.Finished? ==> !evicted)
              && (t.SessionClosed? ==> evicted || conn.Broken() || Next(e, n, Send).conn.None?)
              && (t.Sending? ==> Serves(Next(e, n, Send), conn, gone) && sendOffset > old(sendOffset))
              && (t.Finished? ==>
                    var n' := Next(e, n, Send);
                    && n'.conn.Some? && !n'.conn.value.sending && sendOffset == n'.conn.value.sendOffset
                    && conn.data == if old(conn.Broken()) then old(conn.data) else gone + n'.conn.value.fwd)
    {
      if evicted {
        return SessionClosed;
      }
      if !(log.closed || log.writeOffset > sendOffset) || sendOffset - ackedOffset >= window {
        return Waiting;
      }
      var buf := new byte[Frames.DATA_CHUNK_SIZE](_ => 0);
      var r := log.Read(sendOffset, buf);
      match r
      case Got(bytes) =>
        var ok := conn.WriteFrame(Payload(bytes));
        if !ok {
          return SessionClosed;
        }
        sendOffset := sendOffset + |bytes|;
        assert (gone + n.conn.value.fwd) + [Payload(bytes)] == gone + (n.conn.value.fwd + [Payload(bytes)]);
        return Sending;
      case Ended(err) =>
        if err == Eof {
          var ok := conn.WriteFrame(RstEof);
          assert (gone + n.conn.value.fwd) + [RstEof] == gone + (n.conn.value.fwd + [RstEof]);
          return Finished;
        }
        return SessionClosed;
      case Evicted =>
        return SessionClosed;
    }
  }

  class StreamRecvState {
    var recvOffset: nat
    var ackedOffset: nat
    const buf: RecvBuffer

    constructor ()
      ensures buf.Valid() && fresh(buf) && fresh(buf.buf) && recvOffset == ackedOffset == 0
      ensures buf.Abs() == NEW_NODE.buf
    {
      recvOffset, ackedOffset := 0, 0;
      buf := new RecvBuffer(RECV_BUF_CAP);
    }

    /** handleData: the offset advances only by payloads that went in completely, and a MiB of
        unacknowledged bytes is acknowledged at once, if there is a connection.  A payload is held
        up only by a full buffer and given up only because the buffer is closed or, while it is full,
        the context is cancelled: an open buffer with room takes it. */
    method HandleData(payload: seq<byte>, conn: PushConn?, env: seq<Interference>)
      returns (err: Option<IoError>, blocked: bool, written: nat, taken: seq<byte>)
      requires buf.Valid()
      modifies `recvOffset, `ackedOffset, buf`head, buf`tail, buf`size, buf`closed, buf`closeErr, buf.buf, conn
      ensures buf.Valid()
      ensures written <= |payload| && old(buf.Contents()) + payload[..written] == taken + buf.Contents()
      ensures err.None? && !blocked ==> written == |payload| && recvOffset == old(recvOffset) + |payload|
      ensures err.Some? || blocked ==> recvOffset == old(recvOffset) && ackedOffset == old(ackedOffset)
      ensures blocked ==> err.None? && buf.size == buf.cap && !buf.closed
      ensures err.Some? ==> (buf.closed && err == buf.closeErr)
                            || (CtxDone in env && err == Some(CtxCancelled) && old(buf.size) + written >= buf.cap)
      ensures old(buf.closed) && payload != [] ==> err == old(buf.closeErr) && written == 0
      ensures env == [] && !old(buf.closed) && old(buf.size) + |payload| <= buf.cap ==>
                buf.Contents() == old(buf.Contents()) + payload && recvOffset == old(recvOffset) + |payload|
      ensures conn != null ==> conn.data == old(conn.data)
      ensures var due := err.None? && !blocked && recvOffset >= old(ackedOffset) + ACK_EVERY_BYTES && conn != null;
              && ackedOffset == (if due then recvOffset else old(ackedOffset))
              && (conn != null ==> conn.acks == old(conn.acks) + if due then [recvOffset] else [])
    {
      hide View;
      written, err, blocked, taken := buf.Write(payload, env);
      if err.Some? || blocked {
        return;
      }
      assert payload[..written] == payload && taken + buf.Contents() == old(buf.Contents()) + payload;
      assert [] + buf.Contents() == buf.Contents();
      recvOffset := recvOffset + |payload|;
      if recvOffset - ackedOffset >= ACK_EVERY_BYTES {
        if conn != null {
          SendAck(conn);
        }
      }
    }

    /** handleRST: a reason other than EOF is an error end. */
    method HandleRst(reason: string)
      requires buf.Valid()
      modifies buf`closed, buf`closeErr
      ensures buf.Valid()
      ensures buf.Abs() == old(buf.Abs()).CloseWrite(Some(if reason == "EOF" then Eof else Reset(reason)))
    {
      buf.Close(if reason == "EOF" then None else Some(Reset(reason)));
    }

    /** runOnce's preparation: a closed buffer is writable again, with every buffered byte, and the
        server is asked to resume exactly behind what was received. */
    method Reconnect() returns (resume: nat)
      requires buf.Valid()
      modifies buf`closed, buf`closeErr
      ensures buf.Valid() && buf.Abs() == old(buf.Abs()).(closed := false, closeErr := None)
      ensures resume == recvOffset
    {
      if buf.closed {
        buf.Reopen();
      }
      return recvOffset;
    }

    method SendAck(conn: PushConn)
      modifies `ackedOffset, conn`acks
      ensures ackedOffset == recvOffset && conn.acks == old(conn.acks) + [recvOffset]
    {
      conn.acks := conn.acks + [recvOffset];
      ackedOffset := recvOffset;
    }
  }

  // ---- the broker ----

  datatype AckKey = AckKey(nodeId: string, streamId: uint32)

  ghost function EntriesOf(t: map<AckKey, nat>, streamId: uint32): map<NodeId, nat> {
    map k | k in t && k.streamId == streamId :: k.nodeId := t[k]
  }

  lemma RecordsEntry(t: map<AckKey, nat>, k: AckKey, offset: nat)
    ensures var t' := if offset > (if k in t then t[k] else 0) then t[k := offset] else t;
            && EntriesOf(t', k.streamId) == Record(EntriesOf(t, k.streamId), k.nodeId, offset)
            && forall j: uint32 | j != k.streamId :: EntriesOf(t', j) == EntriesOf(t, j)
  {
    assert k in t <==> k.nodeId in EntriesOf(t, k.streamId) by {
      forall l | l in t && l.streamId == k.streamId && l.nodeId == k.nodeId ensures l == k { }
    }
    var t' := if offset > (if k in t then t[k] else 0) then t[k := offset] else t;
    forall n ensures n in EntriesOf(t', k.streamId) <==> n in Record(EntriesOf(t, k.streamId), k.nodeId, offset) {
      assert AckKey(n, k.streamId) in t' <==> AckKey(n, k.streamId) in t || (t' != t && n == k.nodeId);
    }
  }

  lemma MinOfEntries(t: map<AckKey, nat>, streamId: uint32, min: nat)
    requires forall k <- t :: k.streamId == streamId ==> min <= t[k]
    requires exists k :: k in t && k.streamId == streamId && t[k] == min
    ensures IsMin(EntriesOf(t, streamId), min)
  {
    var k :| k in t && k.streamId == streamId && t[k] == min;
    assert EntriesOf(t, streamId)[k.nodeId] == min;
  }

  class PushBroker {
    var ackTable: map<AckKey, nat>
    var byId: map<uint32, StreamBuffer>

    ghost predicate Valid()
      reads this, byId.Values
    {
      && (forall id <- byId :: byId[id].Valid())
      && (forall i <- byId, j <- byId :: i != j ==> byId[i] != byId[j])
    }

    constructor ()
      ensures Valid() && ackTable == map[] && byId == map[]
    {
      ackTable, byId := map[], map[];
    }

    /** One stream's acknowledgements. */
    ghost function Entries(streamId: uint32): map<NodeId, nat>
      reads `ackTable
    {
      EntriesOf(ackTable, streamId)
    }

    /** onAck: no entry is lost or lowered, the node's own is at or above a positive offset, no other
        changes, and the stream's table is the protocol's.  A node is to be evicted when more of the
        log than the threshold lies behind what it acknowledges (see FullBufferEvicts). */
    method OnAck(nodeId: string, streamId: uint32, offset: int) returns (evict: bool)
      requires Valid()
      modifies `ackTable
      ensures forall k <- old(ackTable) :: k in ackTable && old(ackTable)[k] <= ackTable[k]
      ensures forall k <- ackTable | k != AckKey(nodeId, streamId) ::
                k in old(ackTable) && ackTable[k] == old(ackTable)[k]
      ensures offset > 0 ==> AckKey(nodeId, streamId) in ackTable && offset <= ackTable[AckKey(nodeId, streamId)]
      ensures offset >= 0 ==> Entries(streamId) == Record(old(Entries(streamId)), nodeId, offset)
      ensures forall j: uint32 | j != streamId :: Entries(j) == old(Entries(j))
      ensures evict <==> streamId in byId && |byId[streamId].log| > offset + EVICT_LAG_THRESHOLD
    {
      var k := AckKey(nodeId, streamId);
      if offset >= 0 {
        RecordsEntry(ackTable, k, offset);
      }
      hide EntriesOf, Record;
      if offset > (if k in ackTable then ackTable[k] else 0) {
        ackTable := ackTable[k := offset];
      }
      return streamId in byId && byId[streamId].writeOffset - offset > EVICT_LAG_THRESHOLD;
    }

    /** trimAll's first phase: the smallest entry of every stream that has one. */
    method Minima() returns (mins: map<uint32, nat>)
      ensures forall k <- ackTable :: k.streamId in mins && mins[k.streamId] <= ackTable[k]
      ensures forall id <- mins :: exists k :: k in ackTable && k.streamId == id && ackTable[k] == mins[id]
      ensures forall id <- mins :: IsMin(Entries(id), mins[id])
    {
      hide IsMin;
      mins := map[];
      var left := ackTable.Keys;
      while left != {}
        invariant left <= ackTable.Keys
        invariant forall k <- ackTable :: k !in left ==> k.streamId in mins && mins[k.streamId] <= ackTable[k]
        invariant forall id <- mins :: exists k :: k in ackTable && k.streamId == id && ackTable[k] == mins[id]
        decreases |left|
      {
        var k :| k in left;
        if k.streamId !in mins || ackTable[k] < mins[k.streamId] {
          mins := mins[k.streamId := ackTable[k]];
        }
        left := left - {k};
      }
      forall id | id in mins ensures IsMin(Entries(id), mins[id]) {
        MinOfEntries(ackTable, id, mins[id]);
      }
    }

    method TrimOne(ghost id: uint32, buffer: StreamBuffer, min: nat)
      requires Valid() && id in byId && byId[id] == buffer
      modifies buffer`segments, buffer`baseOffset
      ensures Valid() && buffer.baseOffset == TrimmedBase(old(buffer.baseOffset), buffer.writeOffset, min)
    {
      hide TrimmedBase, Covers;
      buffer.Trim(min);
    }

    /** trimAll's second phase: trim every registered stream to its minimum.  Streams without an
        acknowledgement keep everything. */
    method TrimAll(mins: map<uint32, nat>)
      requires Valid()
      modifies byId.Values`segments, byId.Values`baseOffset
      ensures Valid()
      ensures forall id <- byId :: id in mins ==>
                byId[id].baseOffset == TrimmedBase(old(byId[id].baseOffset), byId[id].writeOffset, mins[id])
      ensures forall id <- byId :: id !in mins ==> unchanged(byId[id])
    {
      hide StreamBuffer.Valid, TrimmedBase;
      var left := mins.Keys * byId.Keys;
      while left != {}
        invariant left <= byId.Keys && left <= mins.Keys && Valid()
        invariant forall id <- byId :: id in left || id !in mins ==> unchanged(byId[id])
        invariant forall id <- byId :: id in mins && id !in left ==>
                    byId[id].baseOffset == TrimmedBase(old(byId[id].baseOffset), byId[id].writeOffset, mins[id])
        decreases |left|
      {
        var id :| id in left;
        TrimOne(id, byId[id], mins[id]);
        left := left - {id};
      }
    }
  }

  /** The threshold lies low enough: if a stream's buffer is still full after a trim to the smallest
      acknowledgement, so that the origin's Append waits, then the next acknowledgement of whoever
      holds the minimum, unless it moves on, gets that node evicted. */
  lemma FullBufferEvicts(base: nat, write: nat, min: nat)
    requires base <= min <= write
    requires write - TrimmedBase(base, write, min) >= BUFFER_MAX_RETAIN
    ensures write > min + EVICT_LAG_THRESHOLD
  {
    TrimIsPrecise(base, write, min);
  }
}
