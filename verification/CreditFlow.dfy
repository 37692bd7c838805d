/**
 Credit-based flow control of one request stream of internal/mux, server to client: the server's
 SendBodyWithFlowControl, the frames in flight both ways, the client's dispatcher and pipe, and
 the reader that batches credit back.  A blocking wait is a guard; every lock-held section, frame
 write and frame delivery is one step, and the two ends' steps interleave freely.
 */
module CreditFlow {
  import opened Bytes
  import opened Frames
  import opened Rings

  const PIPE_BUF_SIZE := 512 * 1024
  const WINDOW_UPDATE_BATCH := 32 * 1024
  const WIN_UPDATE_PAYLOAD_SIZE := 5
  const WIN_DIR_REQUEST: byte := 0

  // ---- pieces shared with the classes in MuxStream ----

  /** Stream.OnData on the pipe of the current phase. */
  function OnData(pipe: Pipe, f: Frame): (Pipe, Option<IoError>) {
    var (p, err) := if |f.payload| > 0 then pipe.WriteNonBlock(f.payload) else (pipe, None);
    if err.Some? then (p, err)
    else (if f.EndsStream() then p.CloseWrite(None) else p, None)
  }

  /** A DATA frame goes in whole or not at all, and its END_STREAM ends an open pipe cleanly, behind
      its payload; only a payload can be refused. */
  lemma DataGoesInWhole(pipe: Pipe, f: Frame)
    requires pipe.closeErr.Some? ==> pipe.closed
    ensures var (p, err) := OnData(pipe, f);
            && (err.None? <==> f.payload == [] || (!pipe.closed && |pipe.contents| + |f.payload| <= pipe.cap))
            && p == pipe.(contents := p.contents, closed := p.closed)
            && p.contents == (if err.None? then pipe.contents + f.payload else pipe.contents)
            && (p.closed <==> pipe.closed || (err.None? && f.EndsStream()))
  {
    WriteIsAllOrNothing(pipe, f.payload);
    assert pipe.contents + [] == pipe.contents;
  }

  /** The credit a WINDOW_UPDATE payload gives to the request direction. */
  function Increment(payload: seq<byte>): int {
    if |payload| < WIN_UPDATE_PAYLOAD_SIZE || payload[4] != WIN_DIR_REQUEST then 0
    else Int32(Uint32(payload[..4]))
  }

  /** flush: uint32(pendingInc) big-endian, then the direction. */
  function UpdatePayload(pendingInc: int): (payload: seq<byte>)
    ensures |payload| == WIN_UPDATE_PAYLOAD_SIZE
  {
    PutUint32(pendingInc % 0x1_0000_0000) + [WIN_DIR_REQUEST]
  }

  /** The int32 encoding carries every increment that can occur. */
  lemma UpdateCarriesIncrement(pendingInc: nat)
    requires pendingInc < 0x8000_0000
    ensures Increment(UpdatePayload(pendingInc)) == pendingInc
  {
    Uint32RoundTrip(pendingInc);
    assert UpdatePayload(pendingInc)[..4] == PutUint32(pendingInc);
  }

  // ---- the state of one stream ----

  datatype Body = Absent | Present(data: seq<byte>) {
    function Bytes(): seq<byte> {
      if Present? then data else []
    }
  }

  /** Where SendBodyWithFlowControl is: about to read the body, waiting for credit for a chunk,
      holding the credit but not yet sent, about to send END_STREAM, done, or given up. */
  datatype Sender =
    | Idle | Looping | Waiting(chunk: seq<byte>, last: bool) | Granted(chunk: seq<byte>, last: bool)
    | Ending | Finished | GaveUp
  {
    function Chunk(): seq<byte> {
      if Waiting? || Granted? then chunk else []
    }

    function Held(): nat {
      if Granted? then |chunk| else 0
    }
  }

  /** `sent` counts the body bytes put into DATA frames; `routed`: the session still knows the id. */
  datatype Server = Server(sender: Sender, sent: nat, avail: int, routed: bool)

  datatype Registration = Unknown | Registered | Removed

  /** `delivered` is everything the reader has returned, `sawEof` whether it has returned io.EOF. */
  datatype Client = Client(reg: Registration, pipe: Pipe, pendingInc: int, delivered: seq<byte>, sawEof: bool)

  /** `lost` is a history variable: credit that vanished because an end gave the stream up. */
  datatype Stream = Stream(body: Body, server: Server, client: Client, lost: nat)

  datatype Link = Link(st: Stream, fwd: seq<Frame>, bwd: seq<Frame>)

  const NEW_PIPE := Pipe([], PIPE_BUF_SIZE, false, None)

  function NewStream(body: Body): Stream {
    Stream(body, Server(Idle, 0, PIPE_BUF_SIZE, false), Client(Unknown, NEW_PIPE, 0, [], false), 0)
  }

  // ---- steps ----

  datatype Event =
    | Start(meta: seq<byte>)              // DoRequest registers the stream and sends HEADERS
    | ReadBody(n: nat, eof: bool)         // body.Read returned n bytes, with or without io.EOF
    | Acquire                             // the credit for the chunk is there
    | SendChunk                           // DATA with the chunk
    | SendEnd                             // DATA with END_STREAM
    | Fail                                // any error return of the send loop, then cleanup
    | Cancel(reason: seq<byte>)           // caller gone while waiting for the response: RST, cleanup
    | ReadPipe(want: nat)                 // the handler reads the request body
    | Flush                               // WINDOW_UPDATE for what was read
    | Finish(rst: Option<seq<byte>>)      // serveRequest returns, with RST after a handler error
    | DeliverFwd                          // the client dispatches the next frame
    | DeliverBwd                          // the server dispatches the next frame

  function DataFrame(id: uint32, payload: seq<byte>, flags: byte): Frame {
    Frame(id, TYPE_DATA, flags, payload)
  }

  predicate CanAct(st: Stream, ev: Event) {
    var s, c, data := st.server, st.client, st.body.Bytes();
    match ev
    case Start(meta) => s.sender.Idle? && |meta| <= MAX_PAYLOAD_SIZE
    case ReadBody(n, eof) =>
      s.sender.Looping? && n <= DATA_CHUNK_SIZE && s.sent + n <= |data| && (eof ==> s.sent + n == |data|)
    case Acquire => s.sender.Waiting? && s.avail >= |s.sender.chunk|
    case SendChunk => s.sender.Granted?
    case SendEnd => s.sender.Ending?
    case Fail => s.sender.Looping? || s.sender.Waiting? || s.sender.Granted? || s.sender.Ending?
    case Cancel(reason) => s.sender.Finished? && |reason| <= MAX_PAYLOAD_SIZE
    case ReadPipe(want) =>
      !c.reg.Unknown? && c.pendingInc < WINDOW_UPDATE_BATCH && (c.pipe.contents != [] || c.pipe.closed)
    case Flush => c.pendingInc >= WINDOW_UPDATE_BATCH
    case Finish(rst) => c.reg.Registered? && (rst.Some? ==> |rst.value| <= MAX_PAYLOAD_SIZE)
    case _ => false
  }

  function SenderAct(st: Stream, ev: Event): Server
    requires CanAct(st, ev)
  {
    var s, data := st.server, st.body.Bytes();
    match ev
    case Start(meta) => s.(sender := if st.body.Absent? then Ending else Looping, routed := true)
    case ReadBody(n, eof) =>
      s.(sender := if n > 0 then Waiting(data[s.sent..s.sent + n], eof) else if eof then Ending else Looping)
    case Acquire => s.(sender := Granted(s.sender.chunk, s.sender.last), avail := s.avail - |s.sender.chunk|)
    case SendChunk => s.(sender := if s.sender.last then Ending else Looping, sent := s.sent + |s.sender.chunk|)
    case SendEnd => s.(sender := Finished)
    case Fail => s.(sender := GaveUp, routed := false)
    case Cancel(_) => s.(sender := GaveUp, routed := false)
    case _ => s
  }

  function ReaderAct(st: Stream, ev: Event): Client
    requires CanAct(st, ev)
  {
    var c := st.client;
    match ev
    case ReadPipe(want) =>
      var (p, r) := c.pipe.Read(want, c.pipe.EndError());
      (match r
       case Data(bytes) => c.(pipe := p, delivered := c.delivered + bytes, pendingInc := c.pendingInc + |bytes|)
       case End(e) => c.(sawEof := c.sawEof || e == Eof)
       case Blocked => c)
    case Flush => c.(pendingInc := 0)
    case Finish(_) => c.(reg := Removed)
    case _ => c
  }

  function FwdOut(st: Stream, id: uint32, ev: Event): seq<Frame>
    requires CanAct(st, ev)
  {
    match ev
    case Start(meta) => [Frame(id, TYPE_HEADERS, 0, meta)]
    case SendChunk => [DataFrame(id, st.server.sender.chunk, 0)]
    case SendEnd => [DataFrame(id, [], FLAG_END_STREAM)]
    case Cancel(reason) => [Frame(id, TYPE_RST, 0, reason)]
    case _ => []
  }

  function BwdOut(st: Stream, id: uint32, ev: Event): seq<Frame>
    requires CanAct(st, ev)
  {
    match ev
    case Flush => [Frame(id, TYPE_WINDOW_UPDATE, 0, UpdatePayload(st.client.pendingInc))]
    case Finish(rst) => if rst.Some? then [Frame(id, TYPE_RST, 0, rst.value)] else []
    case _ => []
  }

  function Act(st: Stream, ev: Event): Stream
    requires CanAct(st, ev)
  {
    Stream(st.body, SenderAct(st, ev), ReaderAct(st, ev),
           st.lost + if ev.Fail? then st.server.sender.Held() else 0)
  }

  /** dispatchLoop and dispatchReqStream: HEADERS of an unregistered id open the stream; every
      other frame of an unregistered id is dropped.  A failing OnData leaves the stream as it is. */
  function ClientReceive(st: Stream, f: Frame): Stream {
    var c := st.client;
    if f.typ == TYPE_HEADERS && !c.reg.Registered? then
      st.(client := Client(Registered, NEW_PIPE, 0, [], false))
    else if !c.reg.Registered? then
      st.(lost := st.lost + if f.typ == TYPE_DATA then |f.payload| else 0)
    else if f.typ == TYPE_DATA then st.(client := c.(pipe := OnData(c.pipe, f).0))
    else if f.typ == TYPE_RST then
      st.(client := c.(pipe := c.pipe.CloseWrite(Some(Reset("peer"))), reg := Removed))
    else st
  }

  /** handleStreamFrame on the server: frames of an id no longer in the session are dropped. */
  function ServerReceive(st: Stream, f: Frame): Stream {
    var inc := if f.typ == TYPE_WINDOW_UPDATE then Increment(f.payload) else 0;
    if !st.server.routed then st.(lost := if inc > 0 then st.lost + inc else st.lost)
    else if f.typ == TYPE_RST then st.(server := st.server.(routed := false))
    else st.(server := st.server.(avail := st.server.avail + inc))
  }

  /** A reset that reaches a served stream keeps what is buffered and readable, after which the reader
      gets the error: it neither waits for ever nor takes the reset for the end of the body. */
  lemma ResetReachesReader(st: Stream, f: Frame, want: nat)
    requires st.client.reg.Registered? && f.typ == TYPE_RST && !st.client.pipe.closed
    requires st.client.pendingInc < WINDOW_UPDATE_BATCH
    ensures var st' := ClientReceive(st, f);
            && CanAct(st', ReadPipe(want)) && !st'.client.reg.Registered?
            && st'.client.pipe.contents == st.client.pipe.contents
            && Act(st', ReadPipe(want)).client.sawEof == st.client.sawEof
            && (st.client.pipe.contents == [] ==>
                  st'.client.pipe.Read(want, st'.client.pipe.EndError()).1 == End(Reset("peer")))
  {
  }

  /** After a reset the server takes no more frames for the stream, and no more credit. */
  lemma ResetStopsCredit(st: Stream, reset: Frame, later: Frame)
    requires reset.typ == TYPE_RST
    ensures ServerReceive(ServerReceive(st, reset), later).server == st.server.(routed := false)
  {
  }

  predicate Can(l: Link, ev: Event) {
    match ev
    case DeliverFwd => l.fwd != []
    case DeliverBwd => l.bwd != []
    case _ => CanAct(l.st, ev)
  }

  function Step(l: Link, id: uint32, ev: Event): Link
    requires Can(l, ev)
  {
    match ev
    case DeliverFwd => Link(ClientReceive(l.st, l.fwd[0]), l.fwd[1..], l.bwd)
    case DeliverBwd => Link(ServerReceive(l.st, l.bwd[0]), l.fwd, l.bwd[1..])
    case _ => Link(Act(l.st, ev), l.fwd + FwdOut(l.st, id, ev), l.bwd + BwdOut(l.st, id, ev))
  }

  // ---- what is in flight ----

  function Payload(f: Frame): seq<byte> {
    if f.typ == TYPE_DATA then f.payload else []
  }

  function Payloads(fs: seq<Frame>): seq<byte> {
    if fs == [] then [] else Payload(fs[0]) + Payloads(fs[1..])
  }

  function FrameIncrement(f: Frame): int {
    if f.typ == TYPE_WINDOW_UPDATE then Increment(f.payload) else 0
  }

  function Increments(fs: seq<Frame>): int {
    if fs == [] then 0 else FrameIncrement(fs[0]) + Increments(fs[1..])
  }

  lemma {:induction false} PayloadsAppend(fs: seq<Frame>, f: Frame)
    ensures Payloads(fs + [f]) == Payloads(fs) + Payload(f)
  {
    if fs == [] {
      assert fs + [f] == [f];
      assert Payloads([f]) == Payload(f) + Payloads([]);
    } else {
      assert (fs + [f])[1..] == fs[1..] + [f];
      PayloadsAppend(fs[1..], f);
    }
  }

  lemma {:induction false} IncrementsAppend(fs: seq<Frame>, f: Frame)
    ensures Increments(fs + [f]) == Increments(fs) + FrameIncrement(f)
  {
    hide Increment;
    if fs == [] {
      assert fs + [f] == [f];
      assert Increments([f]) == FrameIncrement(f) + Increments([]);
    } else {
      assert (fs + [f])[1..] == fs[1..] + [f];
      IncrementsAppend(fs[1..], f);
    }
  }

  // ---- the invariant ----

  /** The credit ledger: every byte of the window is in exactly one place. */
  ghost predicate Ledger(l: Link) {
    && l.st.client.pipe.cap == PIPE_BUF_SIZE
    && l.st.server.avail >= 0 && l.st.client.pendingInc >= 0
    && l.st.server.avail + l.st.server.sender.Held() + |Payloads(l.fwd)| + |l.st.client.pipe.contents|
       + l.st.client.pendingInc + Increments(l.bwd) + l.st.lost == PIPE_BUF_SIZE
  }

  predicate Ends(f: Frame) {
    f.typ == TYPE_RST || (f.typ == TYPE_DATA && f.EndsStream())
  }

  predicate FwdFrame(f: Frame) {
    && Writable(Mux, f)
    && (|| f.typ == TYPE_HEADERS
        || f.typ == TYPE_RST
        || (f.typ == TYPE_DATA && f.flags == if f.payload == [] then FLAG_END_STREAM else 0))
  }

  predicate BwdFrame(f: Frame) {
    && Writable(Mux, f)
    && (f.typ == TYPE_RST || (f.typ == TYPE_WINDOW_UPDATE && Increment(f.payload) > 0))
  }

  /** The order of frames: HEADERS, DATA*, END_STREAM, with RST only after END_STREAM. */
  ghost predicate Order(fwd: seq<Frame>) {
    && (forall i | 0 <= i < |fwd| :: FwdFrame(fwd[i]) && (fwd[i].typ == TYPE_HEADERS ==> i == 0))
    && (forall i, j | 0 <= i < j < |fwd| :: Ends(fwd[i]) ==> fwd[j].typ == TYPE_RST)
  }

  ghost predicate HasEnd(fs: seq<Frame>) {
    exists f <- fs :: Ends(f)
  }

  ghost predicate HasRst(fs: seq<Frame>) {
    exists f <- fs :: f.typ == TYPE_RST
  }

  ghost predicate OnlyRst(fs: seq<Frame>) {
    forall f <- fs :: f.typ == TYPE_RST
  }

  ghost predicate Opens(fwd: seq<Frame>) {
    fwd != [] && fwd[0].typ == TYPE_HEADERS
  }

  ghost predicate BwdOk(bwd: seq<Frame>) {
    forall f <- bwd :: BwdFrame(f)
  }

  lemma OrderAppend(fwd: seq<Frame>, f: Frame)
    requires Order(fwd) && FwdFrame(f)
    requires f.typ == TYPE_HEADERS ==> fwd == []
    requires HasEnd(fwd) ==> f.typ == TYPE_RST
    ensures Order(fwd + [f])
    ensures HasEnd(fwd + [f]) <==> HasEnd(fwd) || Ends(f)
    ensures HasRst(fwd + [f]) <==> HasRst(fwd) || f.typ == TYPE_RST
    ensures OnlyRst(fwd + [f]) <==> OnlyRst(fwd) && f.typ == TYPE_RST
    ensures Opens(fwd + [f]) <==> Opens(fwd) || (fwd == [] && f.typ == TYPE_HEADERS)
  {
    var fwd' := fwd + [f];
    assert f == fwd'[|fwd|] && f in fwd';
    forall g | g in fwd ensures g in fwd' { }
    if HasEnd(fwd) {
      var g :| g in fwd && Ends(g);
      assert g in fwd';
    }
  }

  lemma OrderTail(fwd: seq<Frame>)
    requires Order(fwd) && fwd != []
    ensures Order(fwd[1..]) && !Opens(fwd[1..]) && FwdFrame(fwd[0])
    ensures HasEnd(fwd) <==> Ends(fwd[0]) || HasEnd(fwd[1..])
    ensures HasRst(fwd[1..]) ==> HasRst(fwd)
    ensures Ends(fwd[0]) ==> OnlyRst(fwd[1..])
    ensures fwd[0].typ == TYPE_RST ==> HasRst(fwd)
    ensures OnlyRst(fwd) ==> fwd[0].typ == TYPE_RST && OnlyRst(fwd[1..])
  {
    var tail := fwd[1..];
    assert fwd[0] in fwd;
    forall g | g in tail ensures g in fwd { }
    forall g | g in fwd ensures g == fwd[0] || g in tail {
      var i :| 0 <= i < |fwd| && fwd[i] == g;
      assert i > 0 ==> tail[i - 1] == g;
    }
    if Ends(fwd[0]) {
      forall g | g in tail ensures g.typ == TYPE_RST {
        var i :| 0 <= i < |tail| && tail[i] == g;
        assert fwd[i + 1] == g;
      }
    }
  }

  ghost predicate Over(s: Sender) {
    s.Finished? || s.GaveUp?
  }

  ghost predicate Shape(l: Link) {
    var s, c := l.st.server, l.st.client;
    && Order(l.fwd) && BwdOk(l.bwd)
    && (HasEnd(l.fwd) ==> Over(s.sender))
    && (HasRst(l.fwd) ==> s.sender.GaveUp?)
    && (HasRst(l.bwd) ==> c.reg.Removed?)
    && (c.reg.Unknown? ==> c == NewStream(l.st.body).client
                           && (if s.sender.Idle? then l.fwd == [] else Opens(l.fwd)))
    && (!c.reg.Unknown? ==> !s.sender.Idle? && !Opens(l.fwd))
    && (c.pipe.closed && c.reg.Registered? ==> Over(s.sender) && OnlyRst(l.fwd))
    && (c.pipe.closeErr.Some? ==> c.pipe.closed && c.reg.Removed? && c.pipe.closeErr.value.Reset?)
    && (s.routed ==> !s.sender.Idle? && !s.sender.GaveUp?)
    && (!s.routed ==> s.sender.Idle? || s.sender.GaveUp? || c.reg.Removed?)
    && (s.sender.Finished? && !c.reg.Removed? ==> HasEnd(l.fwd) || c.pipe.closed)
    && (c.reg.Unknown? ==> l.bwd == [])
    && (l.st.lost > 0 ==> c.reg.Removed? || s.sender.GaveUp?)
  }

  /** What the sender has in hand and has sent is the body, in order. */
  ghost predicate SenderInStep(st: Stream) {
    var s, data := st.server, st.body.Bytes();
    && s.sent + |s.sender.Chunk()| <= |data|
    && s.sender.Chunk() == data[s.sent..s.sent + |s.sender.Chunk()|]
    && (s.sender.Waiting? || s.sender.Granted? ==>
          0 < |s.sender.chunk| <= DATA_CHUNK_SIZE && (s.sender.last ==> s.sent + |s.sender.chunk| == |data|))
    && (s.sender.Ending? || s.sender.Finished? ==> s.sent == |data|)
    && (s.sender.Idle? ==> s.sent == 0 && s.avail == PIPE_BUF_SIZE)
  }

  ghost predicate CleanEnd(p: Pipe) {
    p.closed && p.closeErr.None?
  }

  /** Every byte sent is delivered, buffered or in flight, in order; a removed stream keeps a
      prefix.  A cleanly closed pipe completes the body. */
  ghost predicate Fidelity(l: Link) {
    var s, c, data := l.st.server, l.st.client, l.st.body.Bytes();
    && s.sent <= |data|
    && (!c.reg.Removed? ==> c.delivered + c.pipe.contents + Payloads(l.fwd) == data[..s.sent])
    && c.delivered + c.pipe.contents <= data[..s.sent]
    && (HasEnd(l.fwd) ==> s.sent == |data|)
    && (CleanEnd(c.pipe) ==> c.delivered + c.pipe.contents == data)
    && (c.sawEof ==> CleanEnd(c.pipe) && c.pipe.contents == [])
  }

  ghost predicate Inv(l: Link) {
    Ledger(l) && Shape(l) && SenderInStep(l.st) && Fidelity(l)
  }

  lemma InitInv(body: Body)
    ensures Inv(Link(NewStream(body), [], []))
  {
    hide Order, HasEnd, HasRst, OnlyRst, BwdOk, Payloads, Increments;
    NoFrames();
  }

  // ---- what one step keeps ----

  lemma {:induction false} SumNonNegative(fs: seq<Frame>)
    requires BwdOk(fs)
    ensures Increments(fs) >= 0
  {
    hide Increment;
    if fs != [] {
      assert fs[0] in fs;
      SumNonNegative(fs[1..]);
    }
  }

  /** The parts of the window that are never negative bound every other part. */
  lemma LedgerBounds(l: Link)
    requires Ledger(l) && BwdOk(l.bwd)
    ensures Increments(l.bwd) >= 0
    ensures 0 <= l.st.server.avail <= PIPE_BUF_SIZE && 0 <= l.st.client.pendingInc <= PIPE_BUF_SIZE
    ensures |Payloads(l.fwd)| + |l.st.client.pipe.contents| <= PIPE_BUF_SIZE
  {
    SumNonNegative(l.bwd);
  }

  lemma StartKeepsInv(l: Link, id: uint32, meta: seq<byte>)
    requires Inv(l) && Can(l, Start(meta))
    ensures Inv(Step(l, id, Start(meta)))
  {
    hide Order, HasEnd, HasRst, OnlyRst, BwdOk, Payloads, Increments;
    var f := Frame(id, TYPE_HEADERS, 0, meta);
    assert l.bwd + [] == l.bwd;
    NoFrames();
    PayloadsAppend(l.fwd, f);
    OrderAppend(l.fwd, f);
  }

  lemma NoFrames()
    ensures Order([]) && !HasEnd([]) && !HasRst([]) && OnlyRst([]) && BwdOk([])
    ensures Payloads([]) == [] && Increments([]) == 0
  {
  }

  /** Steps of the sender that put nothing on the wire. */
  lemma SilentSenderKeepsInv(l: Link, id: uint32, ev: Event)
    requires Inv(l) && Can(l, ev)
    requires ev.ReadBody? || ev.Acquire? || ev.Fail?
    ensures Inv(Step(l, id, ev))
  {
    hide Order, HasEnd, HasRst, OnlyRst, BwdOk, Payloads, Increments, Opens;
    var l' := Step(l, id, ev);
    assert l'.fwd == l.fwd + [] == l.fwd && l'.bwd == l.bwd + [] == l.bwd;
    assert l'.st.client == l.st.client && l'.st.body == l.st.body;
  }

  lemma SendChunkKeepsInv(l: Link, id: uint32)
    requires Inv(l) && Can(l, SendChunk)
    ensures Inv(Step(l, id, SendChunk))
  {
    hide Order, HasEnd, HasRst, OnlyRst, BwdOk, Payloads, Increments, Opens;
    var s, c, data := l.st.server, l.st.client, l.st.body.Bytes();
    var chunk := s.sender.chunk;
    var f := DataFrame(id, chunk, 0);
    var l' := Step(l, id, SendChunk);
    assert l'.fwd == l.fwd + [f] && l'.bwd == l.bwd + [] == l.bwd;
    PayloadsAppend(l.fwd, f);
    OrderAppend(l.fwd, f);
    assert data[..s.sent + |chunk|] == data[..s.sent] + chunk;
    assert c.delivered + c.pipe.contents + (Payloads(l.fwd) + chunk)
        == (c.delivered + c.pipe.contents + Payloads(l.fwd)) + chunk;
  }

  lemma SendLastKeepsInv(l: Link, id: uint32, ev: Event)
    requires Inv(l) && Can(l, ev)
    requires ev.SendEnd? || ev.Cancel?
    ensures Inv(Step(l, id, ev))
  {
    hide Order, HasEnd, HasRst, OnlyRst, BwdOk, Payloads, Increments, Opens;
    var l' := Step(l, id, ev);
    var f := FwdOut(l.st, id, ev)[0];
    assert l'.fwd == l.fwd + [f] && l'.bwd == l.bwd + [] == l.bwd;
    PayloadsAppend(l.fwd, f);
    assert Payloads(l'.fwd) == Payloads(l.fwd);
    OrderAppend(l.fwd, f);
  }

  lemma ReadPipeKeepsInv(l: Link, id: uint32, want: nat)
    requires Inv(l) && Can(l, ReadPipe(want))
    ensures Inv(Step(l, id, ReadPipe(want)))
  {
    hide Order, HasEnd, HasRst, OnlyRst, BwdOk, Payloads, Increments, Opens;
    var c := l.st.client;
    var l' := Step(l, id, ReadPipe(want));
    var c' := l'.st.client;
    assert l'.fwd == l.fwd + [] == l.fwd && l'.bwd == l.bwd + [] == l.bwd;
    assert c'.delivered + c'.pipe.contents == c.delivered + c.pipe.contents by {
      if c.pipe.contents != [] {
        var n := Min(want, |c.pipe.contents|);
        assert c.pipe.contents == c.pipe.contents[..n] + c.pipe.contents[n..];
      }
    }
  }

  lemma FlushKeepsInv(l: Link, id: uint32)
    requires Inv(l) && Can(l, Flush)
    ensures Inv(Step(l, id, Flush))
  {
    hide Order, HasEnd, OnlyRst, Payloads, Increments, Opens, Increment, UpdatePayload;
    var f := BwdOut(l.st, id, Flush)[0];
    assert l.fwd + [] == l.fwd;
    LedgerBounds(l);
    UpdateCarriesIncrement(l.st.client.pendingInc);
    IncrementsAppend(l.bwd, f);
  }

  lemma FinishKeepsInv(l: Link, id: uint32, rst: Option<seq<byte>>)
    requires Inv(l) && Can(l, Finish(rst))
    ensures Inv(Step(l, id, Finish(rst)))
  {
    hide Order, HasEnd, OnlyRst, Payloads, Increments, Opens, Increment;
    assert l.fwd + [] == l.fwd;
    if rst.Some? {
      IncrementsAppend(l.bwd, Frame(id, TYPE_RST, 0, rst.value));
    } else {
      assert l.bwd + [] == l.bwd;
    }
  }

  /** A compliant sender never overflows the pipe and never writes to a closed one: when a DATA
      frame of a live stream is dispatched, OnData succeeds. */
  lemma OnDataNeverFails(l: Link)
    requires Inv(l) && l.fwd != [] && l.fwd[0].typ == TYPE_DATA && l.st.client.reg.Registered?
    ensures OnData(l.st.client.pipe, l.fwd[0]).1 == None
    ensures OnData(l.st.client.pipe, l.fwd[0]).0.contents == l.st.client.pipe.contents + l.fwd[0].payload
  {
    hide Order, HasEnd, HasRst, OnlyRst, BwdOk, Increments, Opens;
    var f, c := l.fwd[0], l.st.client;
    OrderTail(l.fwd);
    LedgerBounds(l);
    assert Payloads(l.fwd) == Payload(f) + Payloads(l.fwd[1..]);
    assert c.pipe.contents + [] == c.pipe.contents;
  }

  /** The client at the far end of a delivery. */
  lemma DeliverFwdKeepsInv(l: Link, id: uint32)
    requires Inv(l) && Can(l, DeliverFwd)
    ensures Inv(Step(l, id, DeliverFwd))
  {
    hide Inv, ClientReceive;
    var l' := Link(ClientReceive(l.st, l.fwd[0]), l.fwd[1..], l.bwd);
    if l.fwd[0].typ == TYPE_DATA && l.st.client.reg.Registered? {
      DeliverDataKeepsInv(l, l');
    } else if l.st.client.reg.Registered? {
      DeliverRstKeepsInv(l, l');
    } else if l.st.client.reg.Unknown? {
      DeliverFirstKeepsInv(l, l');
    } else {
      DeliverLateKeepsInv(l, l');
    }
  }

  /** To a stream the client serves: RST; other frames change nothing. */
  lemma DeliverRstKeepsInv(l: Link, l': Link)
    requires Inv(l) && l.fwd != [] && l.fwd[0].typ != TYPE_DATA && l.st.client.reg.Registered?
    requires l' == Link(ClientReceive(l.st, l.fwd[0]), l.fwd[1..], l.bwd)
    ensures Inv(l')
  {
    OrderTail(l.fwd);
    assert Payloads(l.fwd) == Payload(l.fwd[0]) + Payloads(l'.fwd);
    hide Order, HasEnd, HasRst, OnlyRst, BwdOk, Increments, Opens, Payloads, OnData;
  }

  lemma DeliverFirstKeepsInv(l: Link, l': Link)
    requires Inv(l) && l.fwd != [] && l.st.client.reg.Unknown?
    requires l' == Link(ClientReceive(l.st, l.fwd[0]), l.fwd[1..], l.bwd)
    ensures Inv(l')
  {
    hide Order, HasEnd, HasRst, OnlyRst, BwdOk, Increments;
    OrderTail(l.fwd);
    DeliverFirstShape(l, l');
    assert Opens(l.fwd);
    assert Payloads(l.fwd) == [] + Payloads(l'.fwd);
    hide Payloads, Shape, Opens;
  }

  lemma DeliverFirstShape(l: Link, l': Link)
    requires Shape(l) && l.fwd != [] && l.st.client.reg.Unknown?
    requires l' == Link(ClientReceive(l.st, l.fwd[0]), l.fwd[1..], l.bwd)
    ensures Shape(l')
  {
    hide Order, HasEnd, HasRst, OnlyRst, BwdOk;
    OrderTail(l.fwd);
  }

  /** Frames of a stream that the client has given up. */
  lemma DeliverLateKeepsInv(l: Link, l': Link)
    requires Inv(l) && l.fwd != [] && l.st.client.reg.Removed?
    requires l' == Link(ClientReceive(l.st, l.fwd[0]), l.fwd[1..], l.bwd)
    ensures Inv(l')
  {
    hide Order, HasEnd, HasRst, OnlyRst, BwdOk, Increments, Ends;
    OrderTail(l.fwd);
    DeliverLateShape(l, l');
    assert !Opens(l.fwd) && l.fwd[0].typ != TYPE_HEADERS;
    assert Payloads(l.fwd) == Payload(l.fwd[0]) + Payloads(l'.fwd);
    hide Payloads, Shape, Opens, OnData;
  }

  lemma DeliverLateShape(l: Link, l': Link)
    requires Shape(l) && l.fwd != [] && l.st.client.reg.Removed?
    requires l' == Link(ClientReceive(l.st, l.fwd[0]), l.fwd[1..], l.bwd)
    ensures Shape(l')
  {
    hide Order, HasEnd, HasRst, OnlyRst, BwdOk, OnData;
    OrderTail(l.fwd);
  }

  lemma DeliverDataKeepsInv(l: Link, l': Link)
    requires Inv(l) && l.fwd != [] && l.fwd[0].typ == TYPE_DATA && l.st.client.reg.Registered?
    requires l' == Link(ClientReceive(l.st, l.fwd[0]), l.fwd[1..], l.bwd)
    ensures Inv(l')
  {
    hide Order, HasEnd, HasRst, OnlyRst, BwdOk, Increments, Opens;
    DeliverDataShape(l, l');
    DeliverDataFidelity(l, l');
    OnDataNeverFails(l);
    assert Payloads(l.fwd) == l.fwd[0].payload + Payloads(l'.fwd);
    hide Shape, Fidelity;
  }

  lemma DeliverDataShape(l: Link, l': Link)
    requires Inv(l) && l.fwd != [] && l.fwd[0].typ == TYPE_DATA && l.st.client.reg.Registered?
    requires l' == Link(ClientReceive(l.st, l.fwd[0]), l.fwd[1..], l.bwd)
    ensures Shape(l')
  {
    hide Order, HasEnd, HasRst, OnlyRst, BwdOk, Increments, Opens, Ledger, Fidelity;
    OrderTail(l.fwd);
  }

  lemma DeliverDataFidelity(l: Link, l': Link)
    requires Inv(l) && l.fwd != [] && l.fwd[0].typ == TYPE_DATA && l.st.client.reg.Registered?
    requires l' == Link(ClientReceive(l.st, l.fwd[0]), l.fwd[1..], l.bwd)
    ensures Fidelity(l')
  {
    hide Order, HasEnd, HasRst, OnlyRst, BwdOk, Increments, Opens, Ledger;
    var f, c := l.fwd[0], l.st.client;
    OrderTail(l.fwd);
    OnDataNeverFails(l);
    assert Payloads(l.fwd) == f.payload + Payloads(l'.fwd);
    assert c.delivered + (c.pipe.contents + f.payload) + Payloads(l'.fwd)
        == c.delivered + c.pipe.contents + Payloads(l.fwd);
    if f.EndsStream() {
      OnlyRstCarriesNothing(l'.fwd);
    }
  }

  lemma {:induction false} OnlyRstCarriesNothing(fs: seq<Frame>)
    requires OnlyRst(fs)
    ensures Payloads(fs) == []
  {
    if fs != [] {
      assert fs[0] in fs;
      OnlyRstCarriesNothing(fs[1..]);
    }
  }

  lemma DeliverBwdKeepsInv(l: Link, id: uint32)
    requires Inv(l) && Can(l, DeliverBwd)
    ensures Inv(Step(l, id, DeliverBwd))
  {
    hide Order, HasEnd, OnlyRst, Payloads, Opens, Increment;
    var l' := Step(l, id, DeliverBwd);
    assert l.bwd[0] in l.bwd;
    assert l'.bwd == l.bwd[1..] && l'.fwd == l.fwd && l'.st.client == l.st.client;
  }

  lemma StepKeepsInv(l: Link, id: uint32, ev: Event)
    requires Inv(l) && Can(l, ev)
    ensures Inv(Step(l, id, ev))
  {
    hide *;
    match ev
    case Start(meta) => StartKeepsInv(l, id, meta);
    case ReadBody(_, _) => SilentSenderKeepsInv(l, id, ev);
    case Acquire => SilentSenderKeepsInv(l, id, ev);
    case Fail => SilentSenderKeepsInv(l, id, ev);
    case SendChunk => SendChunkKeepsInv(l, id);
    case SendEnd => SendLastKeepsInv(l, id, ev);
    case Cancel(_) => SendLastKeepsInv(l, id, ev);
    case ReadPipe(want) => ReadPipeKeepsInv(l, id, want);
    case Flush => FlushKeepsInv(l, id);
    case Finish(rst) => FinishKeepsInv(l, id, rst);
    case DeliverFwd => DeliverFwdKeepsInv(l, id);
    case DeliverBwd => DeliverBwdKeepsInv(l, id);
  }

  // ---- no deadlock, and progress ----

  /** Neither end has given the stream up. */
  ghost predicate Healthy(st: Stream) {
    !st.client.reg.Removed? && !st.server.sender.GaveUp?
  }

  /** Steps of an error-free run that achieve something: reads of the body and of the pipe return
      bytes or the end, and the end is reported once. */
  ghost predicate Useful(st: Stream, ev: Event) {
    match ev
    case ReadBody(n, eof) => n > 0 || eof
    case ReadPipe(want) => want > 0 && (st.client.pipe.contents != [] || !st.client.sawEof)
    case Fail => false
    case Cancel(_) => false
    case Finish(_) => false
    case _ => true
  }

  ghost predicate Productive(l: Link, ev: Event) {
    Can(l, ev) && Useful(l.st, ev)
  }

  ghost predicate Done(l: Link) {
    l.st.server.sender.Finished? && l.st.client.sawEof && l.fwd == [] && l.bwd == []
  }

  /** A step that is enabled whenever the stream is not done.  The interesting case is a sender
      that waits for credit with nothing in flight and nothing buffered: the reader can be sitting
      on less than one batch, so at least PIPE_BUF_SIZE - WINDOW_UPDATE_BATCH credit is available,
      and a chunk needs at most DATA_CHUNK_SIZE. */
  lemma NoDeadlock(l: Link) returns (ev: Event)
    requires Inv(l) && Healthy(l.st) && !Done(l)
    ensures Productive(l, ev)
  {
    hide Order, HasRst, OnlyRst, BwdOk, Fidelity, Opens;
    var s, c, data := l.st.server, l.st.client, l.st.body.Bytes();
    if l.fwd != [] {
      return DeliverFwd;
    } else if l.bwd != [] {
      return DeliverBwd;
    } else if c.pendingInc >= WINDOW_UPDATE_BATCH {
      return Flush;
    } else if s.sender.Idle? {
      return Start([]);
    } else if c.pipe.contents != [] {
      return ReadPipe(1);
    }
    match s.sender
    case Looping =>
      var n := Min(DATA_CHUNK_SIZE, |data| - s.sent);
      return ReadBody(n, s.sent + n == |data|);
    case Waiting(_, _) => return Acquire;
    case Granted(_, _) => return SendChunk;
    case Ending => return SendEnd;
    case Finished => return ReadPipe(1);
  }

  function FrameWeight(f: Frame): nat {
    if f.typ == TYPE_DATA then 5 * |f.payload| + (if f.EndsStream() then 2 else 0)
    else if f.typ == TYPE_WINDOW_UPDATE then Max0(2 * FrameIncrement(f))
    else 1
  }

  function Max0(n: int): nat {
    if n < 0 then 0 else n
  }

  function Weight(fs: seq<Frame>): nat {
    if fs == [] then 0 else FrameWeight(fs[0]) + Weight(fs[1..])
  }

  lemma {:induction false} WeightAppend(fs: seq<Frame>, f: Frame)
    ensures Weight(fs + [f]) == Weight(fs) + FrameWeight(f)
  {
    hide FrameWeight;
    if fs == [] {
      assert fs + [f] == [f];
      assert Weight([f]) == FrameWeight(f) + Weight([]);
    } else {
      assert (fs + [f])[1..] == fs[1..] + [f];
      WeightAppend(fs[1..], f);
    }
  }

  function SenderWeight(s: Sender): nat {
    match s
    case Idle => 6
    case Looping => 4
    case Waiting(chunk, _) => 4 + 7 * |chunk|
    case Granted(chunk, _) => 4 + 6 * |chunk|
    case Ending => 3
    case _ => 0
  }

  /** How far a stream is from done: every byte counts the stages it still has before it, from the
      unread body to the sender's refilled window, and so do the frames without bytes. */
  function Distance(l: Link): nat {
    var s, c := l.st.server, l.st.client;
    Max0(8 * (|l.st.body.Bytes()| - s.sent - |s.sender.Chunk()|)) + SenderWeight(s.sender) + Weight(l.fwd)
    + 4 * |c.pipe.contents| + Max0(3 * c.pendingInc) + Weight(l.bwd) + (if c.sawEof then 0 else 1)
  }

  lemma EmitProgress(l: Link, id: uint32, ev: Event)
    requires Inv(l) && Healthy(l.st) && Productive(l, ev)
    requires ev.Start? || ev.SendChunk? || ev.SendEnd? || ev.Flush?
    ensures Healthy(Step(l, id, ev).st)
    ensures Distance(Step(l, id, ev)) < Distance(l)
  {
    hide Order, HasEnd, HasRst, OnlyRst, BwdOk, Payloads, Increments, Opens, Weight, UpdatePayload, Increment;
    var l' := Step(l, id, ev);
    if ev.Flush? {
      LedgerBounds(l);
      UpdateCarriesIncrement(l.st.client.pendingInc);
      assert l'.fwd == l.fwd;
      WeightAppend(l.bwd, BwdOut(l.st, id, ev)[0]);
    } else {
      assert l'.bwd == l.bwd;
      WeightAppend(l.fwd, FwdOut(l.st, id, ev)[0]);
    }
  }

  lemma SilentProgress(l: Link, id: uint32, ev: Event)
    requires Inv(l) && Healthy(l.st) && Productive(l, ev)
    requires ev.ReadBody? || ev.Acquire? || ev.ReadPipe?
    ensures Healthy(Step(l, id, ev).st)
    ensures Distance(Step(l, id, ev)) < Distance(l)
  {
    hide Order, HasEnd, HasRst, OnlyRst, BwdOk, Payloads, Increments, Opens, Weight, UpdatePayload, Increment;
    var l' := Step(l, id, ev);
    assert l'.fwd == l.fwd && l'.bwd == l.bwd;
  }

  lemma DeliverFwdProgress(l: Link, id: uint32)
    requires Inv(l) && Healthy(l.st) && Can(l, DeliverFwd)
    ensures Healthy(Step(l, id, DeliverFwd).st)
    ensures Distance(Step(l, id, DeliverFwd)) < Distance(l)
  {
    hide Order, HasEnd, OnlyRst, Payloads, Increments, UpdatePayload, Increment, Ledger, Fidelity;
    var f := l.fwd[0];
    assert Weight(l.fwd) == FrameWeight(f) + Weight(l.fwd[1..]);
    OrderTail(l.fwd);
    if f.typ == TYPE_DATA {
      OnDataNeverFails(l);
    }
  }

  lemma DeliverBwdProgress(l: Link, id: uint32)
    requires Inv(l) && Healthy(l.st) && Can(l, DeliverBwd)
    ensures Healthy(Step(l, id, DeliverBwd).st)
    ensures Distance(Step(l, id, DeliverBwd)) < Distance(l)
  {
    hide Order, HasEnd, OnlyRst, Payloads, Increments, UpdatePayload, Increment, Ledger, Fidelity;
    assert l.bwd[0] in l.bwd;
    assert Weight(l.bwd) == FrameWeight(l.bwd[0]) + Weight(l.bwd[1..]);
  }

  /** Every productive step brings a healthy stream strictly nearer to done. */
  lemma ProductiveProgress(l: Link, id: uint32, ev: Event)
    requires Inv(l) && Healthy(l.st) && Productive(l, ev)
    ensures Inv(Step(l, id, ev)) && Healthy(Step(l, id, ev).st)
    ensures Distance(Step(l, id, ev)) < Distance(l)
  {
    hide Inv, Healthy, Step, Distance;
    StepKeepsInv(l, id, ev);
    if ev.DeliverFwd? {
      DeliverFwdProgress(l, id);
    } else if ev.DeliverBwd? {
      DeliverBwdProgress(l, id);
    } else {
      if ev.Start? || ev.SendChunk? || ev.SendEnd? || ev.Flush? {
        EmitProgress(l, id, ev);
      } else {
        SilentProgress(l, id, ev);
      }
    }
  }

  /** What the invariant says to a caller. */
  lemma StreamGuarantees(l: Link)
    requires Inv(l)
    ensures l.st.client.delivered <= l.st.body.Bytes()
    ensures l.st.client.sawEof ==> l.st.client.delivered == l.st.body.Bytes()
    ensures 0 <= l.st.server.avail <= PIPE_BUF_SIZE
    ensures 0 <= l.st.client.pendingInc < 0x8000_0000
    ensures Healthy(l.st) ==>
      l.st.server.avail + l.st.server.sender.Held() + |Payloads(l.fwd)| + |l.st.client.pipe.contents|
      + l.st.client.pendingInc + Increments(l.bwd) == PIPE_BUF_SIZE
  {
    hide Order, HasEnd, HasRst, OnlyRst, BwdOk, Payloads, Increments, Opens;
    LedgerBounds(l);
  }
}
