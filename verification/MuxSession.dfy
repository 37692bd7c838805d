/**
 Any number of request streams on one connection: frames of all streams share one FIFO each way,
 and the dispatchers route them by stream id.  A session step is a step of one stream and invisible
 to every other, so everything proved about one stream holds for each under any interleaving.
 */
module MuxSession {
  import opened Bytes
  import opened Frames
  import opened Rings
  import opened CreditFlow

  /** All requests of a connection, by their distinct stream ids, and the two directions. */
  datatype Session = Session(streams: map<uint32, Stream>, wire: seq<Frame>, back: seq<Frame>)

  datatype Move = On(id: uint32, ev: Event) | ToClient | ToServer

  /** Stream 0 is the control stream: frames of that id never reach a request stream. */
  ghost predicate RequestIds(bodies: map<uint32, Body>) {
    CONTROL_STREAM_ID !in bodies
  }

  function Start(bodies: map<uint32, Body>): Session
    requires RequestIds(bodies)
  {
    Session(map id | id in bodies :: NewStream(bodies[id]), [], [])
  }

  predicate Possible(s: Session, m: Move) {
    match m
    case On(id, ev) => id in s.streams && CanAct(s.streams[id], ev)
    case ToClient => s.wire != [] && s.wire[0].streamId in s.streams
    case ToServer => s.back != [] && s.back[0].streamId in s.streams
  }

  function Next(s: Session, m: Move): Session
    requires Possible(s, m)
  {
    match m
    case On(id, ev) =>
      var st := s.streams[id];
      Session(s.streams[id := Act(st, ev)], s.wire + FwdOut(st, id, ev), s.back + BwdOut(st, id, ev))
    case ToClient =>
      var f := s.wire[0];
      s.(streams := s.streams[f.streamId := ClientReceive(s.streams[f.streamId], f)], wire := s.wire[1..])
    case ToServer =>
      var f := s.back[0];
      s.(streams := s.streams[f.streamId := ServerReceive(s.streams[f.streamId], f)], back := s.back[1..])
  }

  // ---- one stream's share of the session ----

  function Project(fs: seq<Frame>, id: uint32): seq<Frame> {
    if fs == [] then []
    else (if fs[0].streamId == id then [fs[0]] else []) + Project(fs[1..], id)
  }

  lemma {:induction false} ProjectAppend(fs: seq<Frame>, gs: seq<Frame>, id: uint32)
    ensures Project(fs + gs, id) == Project(fs, id) + Project(gs, id)
  {
    if fs == [] {
      assert fs + gs == gs;
    } else {
      assert (fs + gs)[1..] == fs[1..] + gs;
      ProjectAppend(fs[1..], gs, id);
      var head := if fs[0].streamId == id then [fs[0]] else [];
      assert head + (Project(fs[1..], id) + Project(gs, id)) == (head + Project(fs[1..], id)) + Project(gs, id);
    }
  }

  function View(s: Session, id: uint32): Link
    requires id in s.streams
  {
    Link(s.streams[id], Project(s.wire, id), Project(s.back, id))
  }

  /** The stream a move belongs to, and the step it is there. */
  function Owner(s: Session, m: Move): uint32
    requires Possible(s, m)
  {
    match m
    case On(id, _) => id
    case ToClient => s.wire[0].streamId
    case ToServer => s.back[0].streamId
  }

  function Local(m: Move): Event {
    match m
    case On(_, ev) => ev
    case ToClient => DeliverFwd
    case ToServer => DeliverBwd
  }

  lemma EmittedFrames(st: Stream, id: uint32, ev: Event, j: uint32)
    requires CanAct(st, ev)
    ensures Project(FwdOut(st, id, ev), j) == if j == id then FwdOut(st, id, ev) else []
    ensures Project(BwdOut(st, id, ev), j) == if j == id then BwdOut(st, id, ev) else []
  {
    hide CanAct, UpdatePayload;
  }

  /** A move is exactly one step of its owner, and no step of any other stream. */
  lemma MoveIsLocal(s: Session, m: Move, j: uint32)
    requires Possible(s, m) && j in s.streams
    ensures Next(s, m).streams.Keys == s.streams.Keys
    ensures var id := Owner(s, m);
            Can(View(s, id), Local(m)) && View(Next(s, m), j) ==
            if j == id then Step(View(s, id), id, Local(m)) else View(s, j)
  {
    hide CanAct, FwdOut, BwdOut, Act, ClientReceive, ServerReceive;
    match m
    case On(id, ev) =>
      var st := s.streams[id];
      NotDelivery(st, ev);
      ProjectAppend(s.wire, FwdOut(st, id, ev), j);
      ProjectAppend(s.back, BwdOut(st, id, ev), j);
      EmittedFrames(st, id, ev, j);
      assert Project(s.wire, j) + [] == Project(s.wire, j) && Project(s.back, j) + [] == Project(s.back, j);
    case ToClient =>
      ProjectHead(s.wire, j);
    case ToServer =>
      ProjectHead(s.back, j);
  }

  lemma NotDelivery(st: Stream, ev: Event)
    requires CanAct(st, ev)
    ensures !ev.DeliverFwd? && !ev.DeliverBwd?
  {
  }

  lemma ProjectHead(fs: seq<Frame>, j: uint32)
    requires fs != []
    ensures var id := fs[0].streamId;
            Project(fs, id) != [] && Project(fs, id)[0] == fs[0] && Project(fs, id)[1..] == Project(fs[1..], id)
    ensures j != fs[0].streamId ==> Project(fs, j) == Project(fs[1..], j)
  {
    assert Project(fs, fs[0].streamId) == [fs[0]] + Project(fs[1..], fs[0].streamId);
  }

  // ---- safety of every run ----

  ghost predicate Known(s: Session) {
    && (forall f <- s.wire :: f.streamId in s.streams)
    && (forall f <- s.back :: f.streamId in s.streams)
  }

  ghost predicate SessionInv(s: Session) {
    Known(s) && forall id | id in s.streams :: Inv(View(s, id))
  }

  lemma KnownKept(s: Session, m: Move)
    requires Possible(s, m) && Known(s)
    ensures Known(Next(s, m))
  {
    hide CanAct, Act, ClientReceive, ServerReceive, UpdatePayload;
    var s' := Next(s, m);
    match m
    case On(id, ev) =>
      forall f | f in s'.wire ensures f.streamId in s'.streams { }
      forall f | f in s'.back ensures f.streamId in s'.streams { }
    case ToClient =>
      forall f | f in s'.wire ensures f in s.wire { }
    case ToServer =>
      forall f | f in s'.back ensures f in s.back { }
  }

  lemma MoveKeepsInv(s: Session, m: Move)
    requires Possible(s, m) && SessionInv(s)
    ensures SessionInv(Next(s, m)) && Next(s, m).streams.Keys == s.streams.Keys
  {
    hide Inv, Step, Next, Possible, Known, Can, View;
    KnownKept(s, m);
    var id := Owner(s, m);
    OwnerKnown(s, m);
    MoveIsLocal(s, m, id);
    forall j | j in s.streams
      ensures Inv(View(Next(s, m), j))
    {
      MoveIsLocal(s, m, j);
      if j == id {
        StepKeepsInv(View(s, id), id, Local(m));
      }
    }
  }

  lemma OwnerKnown(s: Session, m: Move)
    requires Possible(s, m)
    ensures Owner(s, m) in s.streams
  {
  }

  /** A run: moves of any streams in any order, failures included. */
  ghost predicate Run(run: seq<Session>, moves: seq<Move>) {
    && |run| == |moves| + 1
    && forall i | 0 <= i < |moves| :: Possible(run[i], moves[i]) && run[i + 1] == Next(run[i], moves[i])
  }

  lemma StartInv(bodies: map<uint32, Body>)
    requires RequestIds(bodies)
    ensures SessionInv(Start(bodies))
  {
    forall id | id in bodies
      ensures Inv(View(Start(bodies), id))
    {
      InitInv(bodies[id]);
    }
  }

  lemma {:induction false} RunKeepsInv(bodies: map<uint32, Body>, run: seq<Session>, moves: seq<Move>, k: nat)
    requires RequestIds(bodies)
    requires Run(run, moves) && run[0] == Start(bodies) && k < |run|
    ensures SessionInv(run[k]) && run[k].streams.Keys == bodies.Keys
    decreases k
  {
    hide SessionInv, Next, Possible;
    if k == 0 {
      StartInv(bodies);
      assert Start(bodies).streams.Keys == bodies.Keys;
    } else {
      RunKeepsInv(bodies, run, moves, k - 1);
      MoveKeepsInv(run[k - 1], moves[k - 1]);
    }
  }

  lemma {:induction false} RunKeepsBody(run: seq<Session>, moves: seq<Move>, k: nat, id: uint32)
    requires Run(run, moves) && k < |run| && id in run[0].streams
    ensures id in run[k].streams && run[k].streams[id].body == run[0].streams[id].body
    decreases k
  {
    if k > 0 {
      RunKeepsBody(run, moves, k - 1, id);
      MoveKeepsBody(run[k - 1], moves[k - 1], id);
    }
  }

  lemma MoveKeepsBody(s: Session, m: Move, id: uint32)
    requires Possible(s, m) && id in s.streams
    ensures id in Next(s, m).streams && Next(s, m).streams[id].body == s.streams[id].body
  {
    hide CanAct, SenderAct, ReaderAct, FwdOut, BwdOut;
  }

  /** End-to-end fidelity under multiplexing: at every moment of every run, what a stream's reader
      has returned is a prefix of that stream's own body, and io.EOF was returned only after all of
      it.  The window never exceeds its initial size and the batched credit fits an int32. */
  lemma RunGuarantees(bodies: map<uint32, Body>, run: seq<Session>, moves: seq<Move>, k: nat, id: uint32)
    requires RequestIds(bodies)
    requires Run(run, moves) && run[0] == Start(bodies) && k < |run| && id in bodies
    ensures id in run[k].streams
    ensures var st := run[k].streams[id];
            && st.client.delivered <= bodies[id].Bytes()
            && (st.client.sawEof ==> st.client.delivered == bodies[id].Bytes())
            && 0 <= st.server.avail <= PIPE_BUF_SIZE
            && 0 <= st.client.pendingInc < 0x8000_0000
  {
    hide Next, Possible, Inv;
    RunKeepsInv(bodies, run, moves, k);
    RunKeepsBody(run, moves, k, id);
    StreamGuarantees(View(run[k], id));
  }

  /** Flow control is never violated: whenever the client dispatches a DATA frame to a stream it
      still serves, OnData takes it, whatever the other streams do. */
  lemma RunNeverOverflows(bodies: map<uint32, Body>, run: seq<Session>, moves: seq<Move>, k: nat)
    requires RequestIds(bodies)
    requires Run(run, moves) && run[0] == Start(bodies) && k < |run|
    requires run[k].wire != [] && run[k].wire[0].typ == TYPE_DATA
    ensures run[k].wire[0].streamId in run[k].streams
    ensures var f := run[k].wire[0];
            var c := run[k].streams[f.streamId].client;
            c.reg.Registered? ==> OnData(c.pipe, f).1 == None
  {
    hide Next, Possible, Inv, OnData;
    RunKeepsInv(bodies, run, moves, k);
    var f := run[k].wire[0];
    assert f in run[k].wire;
    ProjectHead(run[k].wire, f.streamId);
    if run[k].streams[f.streamId].client.reg.Registered? {
      OnDataNeverFails(View(run[k], f.streamId));
    }
  }

  /** Credit conservation: at every moment of every run and for every stream, the sender's credit,
      its acquired but unsent bytes, the DATA bytes in flight, the buffered bytes, the consumed but
      unreported bytes and the increments in flight add up to the window; only credit of a stream
      that an end has given up can be missing. */
  lemma RunConservesCredit(bodies: map<uint32, Body>, run: seq<Session>, moves: seq<Move>, k: nat, id: uint32)
    requires RequestIds(bodies)
    requires Run(run, moves) && run[0] == Start(bodies) && k < |run| && id in bodies
    ensures id in run[k].streams
    ensures var s := run[k];
            var st := s.streams[id];
            && st.server.avail + st.server.sender.Held() + |Payloads(Project(s.wire, id))| + |st.client.pipe.contents|
               + st.client.pendingInc + Increments(Project(s.back, id)) + st.lost == PIPE_BUF_SIZE
            && (Healthy(st) ==> st.lost == 0)
  {
    hide Next, Possible, Order, HasEnd, HasRst, OnlyRst, BwdOk, Fidelity, Payloads, Increments, Project;
    RunKeepsInv(bodies, run, moves, k);
    assert Inv(View(run[k], id));
  }

  lemma {:induction false} InProject(fs: seq<Frame>, f: Frame)
    requires f in fs
    ensures f in Project(fs, f.streamId)
  {
    if fs[0] == f {
      ProjectHead(fs, f.streamId);
      assert Project(fs, f.streamId)[0] == f;
    } else {
      assert f in fs[1..];
      InProject(fs[1..], f);
    }
  }

  lemma FramesAreWritable(l: Link)
    requires Inv(l)
    ensures forall f <- l.fwd :: Writable(Mux, f)
    ensures forall f <- l.bwd :: Writable(Mux, f)
  {
    hide Ledger, Fidelity, SenderInStep, Increment, Payloads, Increments;
  }

  /** The frames really are carried by the byte stream: what either end writes decodes, at the
      other, to exactly the frames in flight. */
  lemma WireCarriesFrames(s: Session)
    requires SessionInv(s)
    ensures AllWritable(Mux, s.wire) && DecodeAll(Mux, EncodeAll(Mux, s.wire)) == (s.wire, EndOfFile)
    ensures AllWritable(Mux, s.back) && DecodeAll(Mux, EncodeAll(Mux, s.back)) == (s.back, EndOfFile)
  {
    hide Inv, DecodeAll, EncodeAll, Writable, Project;
    forall i | 0 <= i < |s.wire| ensures Writable(Mux, s.wire[i]) {
      var f := s.wire[i];
      assert f in s.wire;
      InProject(s.wire, f);
      FramesAreWritable(View(s, f.streamId));
    }
    forall i | 0 <= i < |s.back| ensures Writable(Mux, s.back[i]) {
      var f := s.back[i];
      assert f in s.back;
      InProject(s.back, f);
      FramesAreWritable(View(s, f.streamId));
    }
    StreamRoundTrip(Mux, s.wire);
    StreamRoundTrip(Mux, s.back);
  }

  // ---- liveness ----

  ghost predicate AllHealthy(s: Session) {
    forall id | id in s.streams :: Healthy(s.streams[id])
  }

  /** A move of an error-free run that achieves something. */
  ghost predicate UsefulMove(s: Session, m: Move) {
    Possible(s, m) && (m.On? ==> Useful(s.streams[m.id], m.ev))
  }

  ghost predicate AllDone(s: Session) {
    forall id | id in s.streams :: Done(View(s, id))
  }

  /** No deadlock of the whole session: unless every stream is done, some useful move is possible.
      A frame at the head of the wire is always deliverable, whichever stream it belongs to. */
  lemma SessionNoDeadlock(s: Session) returns (m: Move)
    requires SessionInv(s) && AllHealthy(s) && !AllDone(s)
    ensures UsefulMove(s, m)
  {
    hide Inv, Done, Healthy;
    if s.wire != [] {
      assert s.wire[0] in s.wire;
      return ToClient;
    } else if s.back != [] {
      assert s.back[0] in s.back;
      return ToServer;
    }
    var id :| id in s.streams && !Done(View(s, id));
    var ev := NoDeadlock(View(s, id));
    return On(id, ev);
  }

  ghost function Total(s: Session, ids: seq<uint32>): nat
    requires forall id <- ids :: id in s.streams
  {
    if ids == [] then 0 else Distance(View(s, ids[0])) + Total(s, ids[1..])
  }

  lemma UsefulMoveProgress(s: Session, m: Move, j: uint32)
    requires SessionInv(s) && AllHealthy(s) && UsefulMove(s, m) && j in s.streams
    ensures j in Next(s, m).streams && Healthy(Next(s, m).streams[j])
    ensures if j == Owner(s, m) then Distance(View(Next(s, m), j)) < Distance(View(s, j))
            else View(Next(s, m), j) == View(s, j)
  {
    hide Inv, Healthy, Distance, Next, Step, Can, Useful;
    OwnerKnown(s, m);
    MoveIsLocal(s, m, j);
    var id := Owner(s, m);
    if j == id {
      UsefulDelivery(s.streams[id]);
      ProductiveProgress(View(s, id), id, Local(m));
    } else {
      assert Next(s, m).streams[j] == View(Next(s, m), j).st == s.streams[j];
    }
  }

  lemma UsefulDelivery(st: Stream)
    ensures Useful(st, DeliverFwd) && Useful(st, DeliverBwd)
  {
  }

  lemma {:induction false} TotalDecreases(s: Session, m: Move, ids: seq<uint32>)
    requires SessionInv(s) && AllHealthy(s) && UsefulMove(s, m)
    requires forall id <- ids :: id in s.streams
    requires Next(s, m).streams.Keys == s.streams.Keys
    ensures Total(Next(s, m), ids) <= Total(s, ids)
    ensures Owner(s, m) in ids ==> Total(Next(s, m), ids) < Total(s, ids)
  {
    hide SessionInv, AllHealthy, UsefulMove, Next, Distance, Owner, View;
    if ids != [] {
      assert ids[0] in ids;
      UsefulMoveProgress(s, m, ids[0]);
      TotalDecreases(s, m, ids[1..]);
    }
  }

  /** A fresh stream is at most eight moves per body byte, and seven more, from done. */
  lemma StartDistance(bodies: map<uint32, Body>, id: uint32)
    requires RequestIds(bodies)
    requires id in bodies
    ensures Distance(View(Start(bodies), id)) == 8 * |bodies[id].Bytes()| + 7
  {
    assert View(Start(bodies), id) == Link(NewStream(bodies[id]), [], []);
  }

  /** An error-free run in which every move achieves something. */
  ghost predicate UsefulRun(run: seq<Session>, moves: seq<Move>) {
    Run(run, moves) && forall i | 0 <= i < |moves| :: UsefulMove(run[i], moves[i])
  }

  lemma {:induction false} UsefulRunShrinks(bodies: map<uint32, Body>, run: seq<Session>, moves: seq<Move>,
                                            ids: seq<uint32>, k: nat)
    requires RequestIds(bodies)
    requires UsefulRun(run, moves) && run[0] == Start(bodies) && k < |run|
    requires forall id :: id in ids <==> id in bodies
    ensures run[k].streams.Keys == bodies.Keys && AllHealthy(run[k])
    ensures Total(run[k], ids) + k <= Total(run[0], ids)
    decreases k
  {
    hide SessionInv, Next, Possible, UsefulMove, Owner, Total;
    RunKeepsInv(bodies, run, moves, 0);
    RunKeepsInv(bodies, run, moves, k);
    if k > 0 {
      UsefulRunShrinks(bodies, run, moves, ids, k - 1);
      RunKeepsInv(bodies, run, moves, k - 1);
      var s, m := run[k - 1], moves[k - 1];
      OwnerKnown(s, m);
      forall j | j in run[k].streams ensures Healthy(run[k].streams[j]) {
        UsefulMoveProgress(s, m, j);
      }
      TotalDecreases(s, m, ids);
    }
  }

  /** Flow control cannot deadlock and cannot run for ever: an error-free run has at most
      Total(start) moves, and one that cannot be extended has delivered every body in full, with
      EOF seen by every reader. */
  lemma MaximalRunDeliversEverything(bodies: map<uint32, Body>, run: seq<Session>, moves: seq<Move>, ids: seq<uint32>)
    requires RequestIds(bodies)
    requires UsefulRun(run, moves) && run[0] == Start(bodies)
    requires forall id :: id in ids <==> id in bodies
    ensures forall id <- ids :: id in run[0].streams
    ensures |moves| <= Total(run[0], ids)
    ensures var last := run[|moves|];
            (forall m :: !UsefulMove(last, m)) ==>
            forall id | id in bodies :: id in last.streams && last.streams[id].client.sawEof
                                        && last.streams[id].client.delivered == bodies[id].Bytes()
  {
    hide SessionInv, Next, Possible, UsefulMove, Total, AllHealthy;
    RunKeepsInv(bodies, run, moves, 0);
    UsefulRunShrinks(bodies, run, moves, ids, |moves|);
    RunKeepsInv(bodies, run, moves, |moves|);
    var last := run[|moves|];
    if forall m :: !UsefulMove(last, m) {
      if !AllDone(last) {
        var m := SessionNoDeadlock(last);
      }
      forall id | id in bodies
        ensures id in last.streams && last.streams[id].client.sawEof
                && last.streams[id].client.delivered == bodies[id].Bytes()
      {
        RunGuarantees(bodies, run, moves, |moves|, id);
        assert Done(View(last, id));
      }
    }
  }
}
