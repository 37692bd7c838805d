/**
 A run of the push system, from its start, in which trimming strands a subscriber: the broker takes
 the minimum of the acknowledgements it has, another subscriber's first acknowledgement is recorded,
 and the trim to the old minimum then evicts it.
 */
module PushStranded {
  import opened Bytes
  import opened Rings
  import opened StreamLog
  import opened PushProtocol
  import opened PushSystem
  import Frames

  const CHUNKS := 128

  /** The state can be reached from the start of a system with these subscribers. */
  ghost predicate Reachable(ids: set<NodeId>, s: System) {
    exists run, moves :: Run(run, moves) && run[0] == Start(ids) && run[|moves|] == s
  }

  lemma ExtendRun(run: seq<System>, moves: seq<Move>, m: Move)
    requires Run(run, moves) && Possible(run[|moves|], m)
    ensures Run(run + [After(run[|moves|], m)], moves + [m])
  {
    hide Possible, After;
  }

  lemma ReachNext(ids: set<NodeId>, s: System, m: Move) returns (s': System)
    requires Reachable(ids, s) && Possible(s, m)
    ensures Reachable(ids, s') && s' == After(s, m)
  {
    hide Possible, After;
    var run, moves :| Run(run, moves) && run[0] == Start(ids) && run[|moves|] == s;
    ExtendRun(run, moves, m);
    s' := After(s, m);
    assert (run + [s'])[|moves + [m]|] == s';
  }

  /** A connected node that has received k bytes and has nothing in flight. */
  ghost predicate AtRest(n: Node, k: nat) {
    && n.conn == Some(Conn(k, 0, true, [], [])) && n.writing.NotWriting? && n.recvOffset == k
    && n.ackedOffset == 0 && !n.buf.closed && n.buf.cap == RECV_BUF_CAP && |n.buf.contents| == k
  }

  /** One chunk on its way from the log into the node's buffer. */
  lemma NodeChunk(e: Entry, n: Node, k: nat)
    requires AtRest(n, k) && e.base == 0 && k + Frames.DATA_CHUNK_SIZE <= |e.log| <= SEGMENT_SIZE
    ensures Can(e, n, Send)
    ensures var n1 := Next(e, n, Send);
            Can(e, n1, Take) && var n2 := Next(e, n1, Take);
            Can(e, n2, Fill) && var n3 := Next(e, n2, Fill);
            Can(e, n3, Commit) && AtRest(Next(e, n3, Commit), k + Frames.DATA_CHUNK_SIZE)
  {
    var bytes := e.log[k..k + Frames.DATA_CHUNK_SIZE];
    assert [] + [Payload(bytes)] == [Payload(bytes)] && [Payload(bytes)][1..] == [];
  }

  lemma NodeMove(ids: set<NodeId>, s: System, id: NodeId, ev: NodeEvent) returns (s': System)
    requires Reachable(ids, s) && id in s.nodes && Can(s.entry, s.nodes[id], ev) && !ev.GetAck?
    ensures Reachable(ids, s') && s' == s.(nodes := s.nodes[id := Next(s.entry, s.nodes[id], ev)])
  {
    hide Reachable, Can, Next;
    s' := ReachNext(ids, s, At(id, ev));
  }

  lemma OneChunk(ids: set<NodeId>, s: System, id: NodeId, k: nat) returns (s': System)
    requires Reachable(ids, s) && id in s.nodes && AtRest(s.nodes[id], k)
    requires s.entry.base == 0 && k + Frames.DATA_CHUNK_SIZE <= |s.entry.log| <= SEGMENT_SIZE
    ensures Reachable(ids, s') && s' == s.(nodes := s'.nodes) && s'.nodes.Keys == s.nodes.Keys
    ensures AtRest(s'.nodes[id], k + Frames.DATA_CHUNK_SIZE)
    ensures forall j <- s.nodes :: j != id ==> s'.nodes[j] == s.nodes[j]
  {
    hide Reachable, Can, Next, AtRest;
    NodeChunk(s.entry, s.nodes[id], k);
    var s1 := NodeMove(ids, s, id, Send);
    var s2 := NodeMove(ids, s1, id, Take);
    var s3 := NodeMove(ids, s2, id, Fill);
    s' := NodeMove(ids, s3, id, Commit);
  }

  lemma {:induction false} ManyChunks(ids: set<NodeId>, s: System, id: NodeId, c: nat) returns (s': System)
    requires Reachable(ids, s) && id in s.nodes && AtRest(s.nodes[id], 0)
    requires s.entry.base == 0 && c * Frames.DATA_CHUNK_SIZE <= |s.entry.log| <= SEGMENT_SIZE
    ensures Reachable(ids, s') && s' == s.(nodes := s'.nodes) && s'.nodes.Keys == s.nodes.Keys
    ensures AtRest(s'.nodes[id], c * Frames.DATA_CHUNK_SIZE)
    ensures forall j <- s.nodes :: j != id ==> s'.nodes[j] == s.nodes[j]
    decreases c
  {
    hide Reachable, AtRest;
    if c == 0 {
      s' := s;
    } else {
      var t := ManyChunks(ids, s, id, c - 1);
      s' := OneChunk(ids, t, id, (c - 1) * Frames.DATA_CHUNK_SIZE);
    }
  }

  /** A node that connects, takes c chunks and acknowledges them. */
  lemma Receives(ids: set<NodeId>, s: System, id: NodeId, c: nat) returns (s': System)
    requires Reachable(ids, s) && id in s.nodes && s.nodes[id] == NEW_NODE && c > 0
    requires s.entry.base == 0 && c * Frames.DATA_CHUNK_SIZE <= |s.entry.log| <= SEGMENT_SIZE
    ensures Reachable(ids, s') && s' == s.(nodes := s'.nodes) && s'.nodes.Keys == s.nodes.Keys
    ensures AcksFirst(s'.nodes[id], c * Frames.DATA_CHUNK_SIZE)
    ensures forall j <- s.nodes :: j != id ==> s'.nodes[j] == s.nodes[j]
  {
    hide Reachable;
    var s1 := NodeMove(ids, s, id, Connect);
    var s2 := ManyChunks(ids, s1, id, c);
    s' := NodeMove(ids, s2, id, SendAck);
    assert [] + [c * Frames.DATA_CHUNK_SIZE] == [c * Frames.DATA_CHUNK_SIZE];
  }

  /** The node has received n bytes, and its first acknowledgement, of all of them, is in flight. */
  ghost predicate AcksFirst(node: Node, n: nat) {
    node.recvOffset == n && node.conn.Some? && node.conn.value.acks == [n]
  }

  lemma GetsAck(ids: set<NodeId>, s: System, id: NodeId, n: nat) returns (s': System)
    requires Reachable(ids, s) && id in s.nodes && AcksFirst(s.nodes[id], n) && n > 0 && id !in s.ackTable
    ensures Reachable(ids, s') && s' == s.(nodes := s'.nodes, ackTable := s.ackTable[id := n])
    ensures s'.nodes.Keys == s.nodes.Keys && s'.nodes[id].recvOffset == n
    ensures forall j <- s.nodes :: j != id ==> s'.nodes[j] == s.nodes[j]
  {
    hide Reachable, RaiseAck;
    s' := ReachNext(ids, s, At(id, GetAck));
  }

  /** The connection is lost with the acknowledgement still on its way; it is recorded all the same. */
  lemma LosesConnection(ids: set<NodeId>, s: System, id: NodeId, n: nat) returns (s': System)
    requires Reachable(ids, s) && id in s.nodes && AcksFirst(s.nodes[id], n) && n > 0 && id !in s.ackTable
    ensures Reachable(ids, s') && s' == s.(nodes := s'.nodes, ackTable := s.ackTable[id := n])
    ensures s'.nodes.Keys == s.nodes.Keys && s'.nodes[id].recvOffset == n && s'.nodes[id].conn.None?
  {
    hide Reachable;
    var s1 := NodeMove(ids, s, id, Disconnect);
    s' := ReachNext(ids, s1, StaleAck(id, |s.nodes[id].stale|));
  }

  /** trimAll takes its minimum and trims in two critical sections.  In this run `early` has
      acknowledged a whole segment when the minimum is taken; `late` loses its connection, but its
      first acknowledgement is then recorded and, at that moment, retained (state j); the trim evicts
      it, and the next resume of `late` is refused. */
  lemma LateFirstAckCanBeStranded(early: NodeId, late: NodeId) returns (run: seq<System>, moves: seq<Move>, j: nat)
    requires early != late
    ensures Run(run, moves) && run[0] == Start({early, late}) && j < |moves|
    ensures late in run[j].ackTable && late in run[j].nodes && run[j].entry.base <= run[j].ackTable[late]
    ensures var s := run[|moves|];
            && late in s.nodes && s.nodes[late].conn.None?
            && late in s.ackTable && s.nodes[late].recvOffset == s.ackTable[late]
            && ReadLog(s.entry.log, s.entry.base, s.entry.closeErr, s.nodes[late].recvOffset, Frames.DATA_CHUNK_SIZE)
               == Evicted
  {
    hide Reachable, AcksFirst, Can, Next;
    var ids := {early, late};
    var s0 := ReachStart(ids);
    var s1 := ReachNext(ids, s0, Grow(seq(SEGMENT_SIZE, _ => 0)));
    var s2 := Receives(ids, s1, late, 1);
    var s3 := Receives(ids, s2, early, CHUNKS);
    var s4 := GetsAck(ids, s3, early, SEGMENT_SIZE);
    assert s4.ackTable[early] == SEGMENT_SIZE;
    var s5 := ReachNext(ids, s4, Snapshot(SEGMENT_SIZE));
    var s6 := LosesConnection(ids, s5, late, Frames.DATA_CHUNK_SIZE);
    run, moves := RunTo(ids, s6);
    j := |moves|;
    ExtendRun(run, moves, TrimLog);
    run, moves := run + [After(s6, TrimLog)], moves + [TrimLog];
  }

  lemma ReachStart(ids: set<NodeId>) returns (s: System)
    ensures Reachable(ids, s) && s == Start(ids)
  {
    s := Start(ids);
    var run, moves := [s], [];
    assert Run(run, moves) && run[|moves|] == s;
  }

  lemma RunTo(ids: set<NodeId>, s: System) returns (run: seq<System>, moves: seq<Move>)
    requires Reachable(ids, s)
    ensures Run(run, moves) && run[0] == Start(ids) && run[|moves|] == s
  {
    run, moves :| Run(run, moves) && run[0] == Start(ids) && run[|moves|] == s;
  }
}
