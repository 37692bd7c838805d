/**
 One StreamEntry with all its subscribers: the origin appends and closes, every node goes through
 its own connections, and the broker records acknowledgements and trims the log.  trimAll takes its
 minimum under the table's lock and trims later, so the two are separate moves.
 */
module PushSystem {
  import opened Bytes
  import opened Rings
  import opened StreamLog
  import opened PushProtocol
  import Frames

  type NodeId = string

  /** `ackTable` holds this stream's entries; `snap` is the minimum trimAll took and has not used. */
  datatype System = System(entry: Entry, nodes: map<NodeId, Node>, ackTable: map<NodeId, nat>, snap: Option<nat>)

  datatype Move =
    | Grow(data: seq<byte>)            // Append
    | CloseLog(err: Option<IoError>)   // StreamBuffer.Close
    | Snapshot(min: nat)               // trimAll, under ackMu
    | TrimLog                          // trimAll, Buffer.Trim
    | At(id: NodeId, ev: NodeEvent)
    | StaleAck(id: NodeId, i: nat)     // an ACK of an earlier connection reaches the broker

  function Start(ids: set<NodeId>): System {
    System(Entry([], 0, None), map id | id in ids :: NEW_NODE, map[], None)
  }

  ghost predicate IsMin(t: map<NodeId, nat>, m: nat) {
    (exists id :: id in t && t[id] == m) && forall id | id in t :: m <= t[id]
  }

  /** onAck's table update: a missing entry reads as 0. */
  function Record(t: map<NodeId, nat>, id: NodeId, offset: nat): map<NodeId, nat> {
    if offset > (if id in t then t[id] else 0) then t[id := offset] else t
  }

  ghost predicate Possible(s: System, m: Move) {
    match m
    case Grow(_) => s.entry.closeErr.None?
    case CloseLog(_) => s.entry.closeErr.None?
    case Snapshot(min) => s.snap.None? && IsMin(s.ackTable, min)
    case TrimLog => s.snap.Some?
    case At(id, ev) => id in s.nodes && Can(s.entry, s.nodes[id], ev)
    case StaleAck(id, i) => id in s.nodes && i < |s.nodes[id].stale|
  }

  ghost function After(s: System, m: Move): System
    requires Possible(s, m)
  {
    var e := s.entry;
    match m
    case Grow(data) => s.(entry := e.(log := e.log + data))
    case CloseLog(err) => s.(entry := e.(closeErr := Some(if err.Some? then err.value else Eof)))
    case Snapshot(min) => s.(snap := Some(min))
    case TrimLog => s.(entry := e.(base := TrimmedBase(e.base, |e.log|, s.snap.value)), snap := None)
    case At(id, ev) =>
      var n := s.nodes[id];
      s.(nodes := s.nodes[id := Next(e, n, ev)],
         ackTable := if ev.GetAck? then Record(s.ackTable, id, n.conn.value.acks[0]) else s.ackTable)
    case StaleAck(id, i) => s.(ackTable := Record(s.ackTable, id, s.nodes[id].stale[i]))
  }

  // ---- the invariant ----

  ghost predicate TableInv(s: System) {
    forall id | id in s.ackTable :: id in s.nodes && s.ackTable[id] <= s.nodes[id].recvOffset
  }

  ghost predicate SystemInv(s: System) {
    && (forall id | id in s.nodes :: NodeInv(s.entry, s.nodes[id]))
    && TableInv(s)
    && s.entry.base <= |s.entry.log| && (s.snap.Some? ==> s.snap.value <= |s.entry.log|)
  }

  lemma StartInv(ids: set<NodeId>)
    ensures SystemInv(Start(ids))
  {
    NewNodeInv(Entry([], 0, None));
  }

  lemma CloseKeeps(e: Entry, n: Node, err: IoError)
    requires NodeInv(e, n) && e.closeErr.None?
    ensures NodeInv(e.(closeErr := Some(err)), n)
  {
    hide FlightBytes, OnlyLast, Ascending;
  }

  lemma TrimKeeps(e: Entry, n: Node, base: nat)
    requires NodeInv(e, n)
    ensures NodeInv(e.(base := base), n)
  {
    hide FlightBytes, OnlyLast, Ascending;
  }

  lemma RecvWithinLog(e: Entry, n: Node)
    requires NodeInv(e, n)
    ensures n.recvOffset <= |e.log|
  {
  }

  lemma MoveKeepsNodes(s: System, m: Move)
    requires Possible(s, m) && SystemInv(s)
    ensures After(s, m).nodes.Keys == s.nodes.Keys
    ensures forall id | id in s.nodes :: NodeInv(After(s, m).entry, After(s, m).nodes[id])
                                         && s.nodes[id].recvOffset <= After(s, m).nodes[id].recvOffset
                                         && s.nodes[id].consumed <= After(s, m).nodes[id].consumed
  {
    hide NodeInv, Next, Can, TrimmedBase, IsMin, TableInv, Record;
    forall id | id in s.nodes
      ensures NodeInv(After(s, m).entry, After(s, m).nodes[id])
      ensures s.nodes[id].recvOffset <= After(s, m).nodes[id].recvOffset
      ensures s.nodes[id].consumed <= After(s, m).nodes[id].consumed
    {
      var n := s.nodes[id];
      match m
      case Grow(data) => GrowKeeps(s.entry, n, data);
      case CloseLog(err) => CloseKeeps(s.entry, n, if err.Some? then err.value else Eof);
      case TrimLog => TrimKeeps(s.entry, n, TrimmedBase(s.entry.base, |s.entry.log|, s.snap.value));
      case Snapshot(_) =>
      case StaleAck(_, _) =>
      case At(at, ev) =>
        if at == id {
          NodeStepKeeps(s.entry, n, ev);
        }
    }
  }

  lemma AcksBelowRecv(e: Entry, n: Node)
    requires NodeInv(e, n)
    ensures n.conn.Some? && n.conn.value.acks != [] ==> n.conn.value.acks[0] <= n.recvOffset
    ensures forall i | 0 <= i < |n.stale| :: n.stale[i] <= n.recvOffset
  {
    hide FlightBytes, OnlyLast;
  }

  /** Entries of the table only ever grow, and stay at or below what their node received. */
  lemma MoveKeepsTable(s: System, m: Move)
    requires Possible(s, m) && SystemInv(s)
    ensures TableInv(After(s, m))
    ensures forall id | id in s.ackTable :: id in After(s, m).ackTable && s.ackTable[id] <= After(s, m).ackTable[id]
  {
    hide NodeInv, Next, TrimmedBase, IsMin;
    MoveKeepsNodes(s, m);
    if m.At? {
      AcksBelowRecv(s.entry, s.nodes[m.id]);
    } else if m.StaleAck? {
      AcksBelowRecv(s.entry, s.nodes[m.id]);
    }
  }

  lemma MoveKeepsInv(s: System, m: Move)
    requires Possible(s, m) && SystemInv(s)
    ensures SystemInv(After(s, m)) && After(s, m).nodes.Keys == s.nodes.Keys
  {
    hide NodeInv, Next, Can, Record, TrimmedBase;
    MoveKeepsNodes(s, m);
    MoveKeepsTable(s, m);
    if m.TrimLog? {
      TrimIsPrecise(s.entry.base, |s.entry.log|, s.snap.value);
    } else if m.Snapshot? {
      var id :| id in s.ackTable && s.ackTable[id] == m.min;
      RecvWithinLog(s.entry, s.nodes[id]);
    }
  }

  // ---- trimming and acknowledged subscribers ----

  /** A node whose recorded acknowledgement is retained, and not below a pending trim. */
  ghost predicate Protected(s: System, id: NodeId) {
    && id in s.ackTable && s.entry.base <= s.ackTable[id]
    && (s.snap.Some? ==> s.snap.value <= s.ackTable[id])
  }

  /** Once protected, protected for ever: no later acknowledgement or trim moves the base past the
      node's entry. */
  lemma ProtectedForGood(s: System, m: Move, id: NodeId)
    requires Possible(s, m) && SystemInv(s) && Protected(s, id)
    ensures Protected(After(s, m), id)
  {
    hide NodeInv, Next, Can, TrimmedBase;
    MoveKeepsTable(s, m);
    if m.TrimLog? {
      TrimIsPrecise(s.entry.base, |s.entry.log|, s.snap.value);
    }
  }

  /** A protected node can always be served: neither its live sender nor a resume at its receive
      offset ever reads below the base. */
  lemma ProtectedNeverEvicted(s: System, id: NodeId, want: nat)
    requires SystemInv(s) && Protected(s, id)
    ensures id in s.nodes
    ensures var e, n := s.entry, s.nodes[id];
            && ReadLog(e.log, e.base, e.closeErr, n.recvOffset, want) != Evicted
            && (n.conn.Some? ==> ReadLog(e.log, e.base, e.closeErr, n.conn.value.sendOffset, want) != Evicted)
  {
    hide FlightBytes, OnlyLast, Ascending;
    assert NodeInv(s.entry, s.nodes[id]);
  }

  /** The exact condition for an entry that is retained now to survive a pending trim: it lies in
      the segment of the snapshot's minimum or a later one. */
  predicate Survives(base: nat, write: nat, min: nat, ack: nat) {
    if min < base then true
    else if min >= write then ack >= write
    else (min - base) / SEGMENT_SIZE <= (ack - base) / SEGMENT_SIZE
  }

  lemma PendingTrimIsExact(s: System, id: NodeId)
    requires SystemInv(s) && Possible(s, TrimLog) && id in s.ackTable && s.entry.base <= s.ackTable[id]
    ensures After(s, TrimLog).entry.base <= s.ackTable[id] <==>
            Survives(s.entry.base, |s.entry.log|, s.snap.value, s.ackTable[id])
  {
    hide NodeInv;
    var base, min, ack := s.entry.base, s.snap.value, s.ackTable[id];
    var k, j := (min - base) / SEGMENT_SIZE, (ack - base) / SEGMENT_SIZE;
    assert k > j ==> base + k * SEGMENT_SIZE >= base + j * SEGMENT_SIZE + SEGMENT_SIZE > ack;
  }

  // ---- runs ----

  ghost predicate Run(run: seq<System>, moves: seq<Move>) {
    && |run| == |moves| + 1
    && forall i | 0 <= i < |moves| :: Possible(run[i], moves[i]) && run[i + 1] == After(run[i], moves[i])
  }

  lemma {:induction false} RunKeepsInv(ids: set<NodeId>, run: seq<System>, moves: seq<Move>, k: nat)
    requires Run(run, moves) && run[0] == Start(ids) && k < |run|
    ensures SystemInv(run[k]) && run[k].nodes.Keys == ids
    decreases k
  {
    hide SystemInv, Possible, After;
    if k == 0 {
      StartInv(ids);
      assert Start(ids).nodes.Keys == ids;
    } else {
      RunKeepsInv(ids, run, moves, k - 1);
      MoveKeepsInv(run[k - 1], moves[k - 1]);
    }
  }

  /** The log is append-only, and so is what a consumer has read. */
  lemma {:induction false} RunOnlyExtends(ids: set<NodeId>, run: seq<System>, moves: seq<Move>,
                                          i: nat, k: nat, id: NodeId)
    requires Run(run, moves) && run[0] == Start(ids) && i <= k < |run| && id in ids
    ensures id in run[i].nodes && id in run[k].nodes
    ensures run[i].entry.log <= run[k].entry.log
    ensures run[i].nodes[id].consumed <= run[k].nodes[id].consumed
    decreases k
  {
    hide SystemInv, Possible, After;
    RunKeepsInv(ids, run, moves, i);
    if i < k {
      RunOnlyExtends(ids, run, moves, i, k - 1, id);
      RunKeepsInv(ids, run, moves, k - 1);
      LogOnlyExtends(run[k - 1], moves[k - 1]);
      MoveKeepsNodesOf(run[k - 1], moves[k - 1], id);
    }
  }

  lemma LogOnlyExtends(s: System, m: Move)
    requires Possible(s, m)
    ensures s.entry.log <= After(s, m).entry.log
  {
    hide Can, Next, TrimmedBase, IsMin, Record;
  }

  lemma MoveKeepsNodesOf(s: System, m: Move, id: NodeId)
    requires Possible(s, m) && SystemInv(s) && id in s.nodes
    ensures id in After(s, m).nodes && s.nodes[id].consumed <= After(s, m).nodes[id].consumed
  {
    hide SystemInv, Possible, After;
    MoveKeepsNodes(s, m);
  }

  /** Exactly-once push: at every moment of every run, with any connection losses and reconnects,
      what ever went into a node's RecvBuffer is the log up to its receive offset plus the written
      part of the frame in progress, with no gap, repetition or reordering; what its consumer has
      read is a prefix of that; and the consumer has seen EOF only after the whole closed log. */
  lemma ExactlyOnce(ids: set<NodeId>, run: seq<System>, moves: seq<Move>, k: nat, id: NodeId)
    requires Run(run, moves) && run[0] == Start(ids) && k < |run| && id in ids
    ensures id in run[k].nodes
    ensures var e, n := run[k].entry, run[k].nodes[id];
            && n.recvOffset + n.writing.Written() <= |e.log|
            && n.consumed + n.buf.contents == e.log[..n.recvOffset + n.writing.Written()]
            && (n.sawEof ==> e.closeErr == Some(Eof) && n.consumed == e.log)
  {
    hide SystemInv, Possible, After, FlightBytes, OnlyLast, Ascending;
    RunKeepsInv(ids, run, moves, k);
    NodeInvOf(run[k], id);
  }

  lemma NodeInvOf(s: System, id: NodeId)
    requires SystemInv(s) && id in s.nodes
    ensures NodeInv(s.entry, s.nodes[id])
  {
  }

  /** The offset chain: on a live connection acked <= recv <= sent <= written, the bytes in flight
      are exactly the gap, and sent - acked stays below the window plus one chunk. */
  lemma OffsetChain(ids: set<NodeId>, run: seq<System>, moves: seq<Move>, k: nat, id: NodeId)
    requires Run(run, moves) && run[0] == Start(ids) && k < |run| && id in ids
    ensures id in run[k].nodes
    ensures var e, n := run[k].entry, run[k].nodes[id];
            n.conn.Some? ==>
              var c := n.conn.value;
              && c.ackedOffset <= n.recvOffset <= c.sendOffset <= |e.log|
              && n.recvOffset + n.writing.Size() + |FlightBytes(c.fwd)| == c.sendOffset
              && c.sendOffset - c.ackedOffset <= DEFAULT_SEND_WINDOW + Frames.DATA_CHUNK_SIZE - 1
  {
    hide SystemInv, Possible, After, FlightBytes, OnlyLast, Ascending;
    RunKeepsInv(ids, run, moves, k);
    NodeInvOf(run[k], id);
  }

  /** Trimming never strands an acknowledged subscriber, over whole runs. */
  lemma {:induction false} ProtectedThroughout(ids: set<NodeId>, run: seq<System>, moves: seq<Move>,
                                               i: nat, k: nat, id: NodeId, want: nat)
    requires Run(run, moves) && run[0] == Start(ids) && i <= k < |run| && Protected(run[i], id)
    ensures Protected(run[k], id) && id in run[k].nodes
    ensures run[i].ackTable[id] <= run[k].ackTable[id]
    ensures var e := run[k].entry;
            ReadLog(e.log, e.base, e.closeErr, run[k].nodes[id].recvOffset, want) != Evicted
    decreases k
  {
    hide SystemInv, Possible, After, NodeInv, ReadLog;
    RunKeepsInv(ids, run, moves, k);
    if i < k {
      ProtectedThroughout(ids, run, moves, i, k - 1, id, want);
      RunKeepsInv(ids, run, moves, k - 1);
      ProtectedForGood(run[k - 1], moves[k - 1], id);
      MoveKeepsTable(run[k - 1], moves[k - 1]);
    }
    ProtectedNeverEvicted(run[k], id, want);
  }

  // ---- a lasting connection ----

  lemma MoveOnLink(s: System, m: Move, id: NodeId)
    requires Possible(s, m) && SystemInv(s) && id in s.nodes
    ensures id in After(s, m).nodes && SameConnClimbs(s.nodes[id], After(s, m).nodes[id])
  {
    hide NodeInv, Next, Can, TrimmedBase, IsMin, TableInv, Record;
    if m.At? && m.id == id {
      NodeStepKeeps(s.entry, s.nodes[id], m.ev);
    }
  }

  /** While a connection lasts, what the server has sent and what it knows to be acknowledged never
      move back. */
  lemma {:induction false} ConnectionClimbs(ids: set<NodeId>, run: seq<System>, moves: seq<Move>,
                                            i: nat, k: nat, id: NodeId)
    requires Run(run, moves) && run[0] == Start(ids) && i <= k < |run| && id in ids
    requires forall j | i <= j <= k :: id in run[j].nodes && run[j].nodes[id].conn.Some?
    ensures run[i].nodes[id].conn.value.ackedOffset <= run[k].nodes[id].conn.value.ackedOffset
    ensures run[i].nodes[id].conn.value.sendOffset <= run[k].nodes[id].conn.value.sendOffset
    decreases k
  {
    hide SystemInv, Possible, After;
    if i < k {
      ConnectionClimbs(ids, run, moves, i, k - 1, id);
      RunKeepsInv(ids, run, moves, k - 1);
      MoveOnLink(run[k - 1], moves[k - 1], id);
    }
  }

  /** The stream is cleanly closed, and the node is connected and protected from trimming. */
  ghost predicate Settled(s: System, id: NodeId) {
    CleanlyClosed(s.entry) && Protected(s, id) && id in s.nodes && s.nodes[id].conn.Some?
  }

  /** The node's own moves achieve something; anything else may happen around it. */
  ghost predicate Undisturbed(s: System, m: Move, id: NodeId) {
    m.At? && m.id == id && id in s.nodes ==> Useful(s.nodes[id], m.ev)
  }

  function MovesOf(moves: seq<Move>, id: NodeId): nat {
    if moves == [] then 0
    else MovesOf(moves[..|moves| - 1], id)
         + (if moves[|moves| - 1].At? && moves[|moves| - 1].id == id then 1 else 0)
  }

  lemma SettledMove(s: System, m: Move, id: NodeId)
    requires Possible(s, m) && SystemInv(s) && Settled(s, id) && Undisturbed(s, m, id)
    ensures Settled(After(s, m), id) && After(s, m).entry.log == s.entry.log
    ensures Distance(s.entry.log, After(s, m).nodes[id]) <=
            Distance(s.entry.log, s.nodes[id]) - (if m.At? && m.id == id then 1 else 0)
  {
    hide NodeInv, Next, Can, TrimmedBase, IsMin, TableInv, Record, Protected, Useful, Distance;
    ProtectedForGood(s, m, id);
    if m.At? && m.id == id {
      ProtectedKnown(s, id);
      UsefulProgress(s.entry, s.nodes[id], m.ev);
    }
  }

  lemma ProtectedKnown(s: System, id: NodeId)
    requires SystemInv(s) && Protected(s, id)
    ensures id in s.nodes && NodeInv(s.entry, s.nodes[id]) && s.entry.base <= s.nodes[id].recvOffset
  {
    hide NodeInv;
  }

  /** Push cannot deadlock and cannot run for ever: once a stream is cleanly closed, a connected and
      protected node makes at most Distance useful moves while its connection lasts, whatever the
      other nodes, late acknowledgements and trims do in between; and when it has none left, its
      consumer has read the whole log and seen EOF. */
  lemma {:induction false} PushDeliversEverything(ids: set<NodeId>, run: seq<System>, moves: seq<Move>,
                                                  i: nat, k: nat, id: NodeId)
    requires Run(run, moves) && run[0] == Start(ids) && i <= k < |run| && Settled(run[i], id)
    requires forall j | i <= j < k :: Undisturbed(run[j], moves[j], id)
    ensures Settled(run[k], id) && run[k].entry.log == run[i].entry.log
    ensures 0 <= Distance(run[k].entry.log, run[k].nodes[id])
    ensures MovesOf(moves[i..k], id) + Distance(run[k].entry.log, run[k].nodes[id])
            <= Distance(run[i].entry.log, run[i].nodes[id])
    ensures (forall ev :: !(Can(run[k].entry, run[k].nodes[id], ev) && Useful(run[k].nodes[id], ev))) ==>
              run[k].nodes[id].sawEof && run[k].nodes[id].consumed == run[k].entry.log
    decreases k
  {
    hide SystemInv, Possible, After, NodeInv, Can, Useful, Distance, Undisturbed;
    RunKeepsInv(ids, run, moves, k);
    if i < k {
      PushDeliversEverything(ids, run, moves, i, k - 1, id);
      RunKeepsInv(ids, run, moves, k - 1);
      SettledMove(run[k - 1], moves[k - 1], id);
      assert moves[i..k][..k - i - 1] == moves[i..k - 1];
    }
    NodeInvOf(run[k], id);
    DistanceBounds(run[k].entry, run[k].nodes[id]);
    if !(run[k].nodes[id].sawEof && run[k].nodes[id].consumed == run[k].entry.log) {
      var ev := StuckIsDelivered(run[k].entry, run[k].nodes[id]);
    }
  }

  /** The origin's clean end settles every connected and protected node. */
  lemma CleanEndSettles(s: System, id: NodeId)
    requires SystemInv(s) && Possible(s, CloseLog(None)) && Protected(s, id)
    requires id in s.nodes && s.nodes[id].conn.Some?
    ensures Settled(After(s, CloseLog(None)), id) && After(s, CloseLog(None)).entry.log == s.entry.log
  {
    hide NodeInv;
  }

  /** Right after a reconnect that distance is at most seven moves per log byte, and four more. */
  lemma ReconnectDistance(s: System, id: NodeId)
    requires SystemInv(s) && Possible(s, At(id, Connect))
    ensures Distance(s.entry.log, After(s, At(id, Connect)).nodes[id]) <= 7 * |s.entry.log| + 4
  {
    hide NodeInv, Distance;
    NodeStepKeeps(s.entry, s.nodes[id], Connect);
    DistanceBounds(s.entry, After(s, At(id, Connect)).nodes[id]);
  }
}
