/**
 The objects of internal/mux/muxproto/stream.go that the steps of CreditFlow abstract: the credit
 tracker, a stream's dispatcher methods, the reader that returns credit, and the send loop.
 Waiting for a condition variable is modelled by the releases that arrive meanwhile.
 */
module MuxStream {
  import opened Bytes
  import opened Frames
  import opened Rings
  import opened CreditFlow

  function Sum(ns: seq<int>): int {
    if ns == [] then 0 else Sum(ns[..|ns| - 1]) + ns[|ns| - 1]
  }

  lemma SumOfNone(ns: seq<int>)
    ensures Sum(ns[..0]) == 0
  {
  }

  lemma SumPrefixStep(ns: seq<int>, k: nat)
    requires k < |ns|
    ensures Sum(ns[..k + 1]) == Sum(ns[..k]) + ns[k]
  {
    assert ns[..k + 1][..k] == ns[..k];
  }

  class WindowTracker {
    var avail: int

    constructor (initial: int)
      ensures avail == initial
    {
      avail := initial;
    }

    /** Acquire takes n bytes of credit, waiting while there is less; `releases` is what other
        goroutines release during the wait, after which the context is cancelled.  Credit is taken
        at the first moment it suffices, and a cancelled call takes none. */
    method Acquire(n: nat, releases: seq<int>) returns (ok: bool, used: nat)
      modifies this
      ensures used <= |releases|
      ensures avail == old(avail) + Sum(releases[..used]) - if ok then n else 0
      ensures ok ==> avail >= 0 && forall k | 0 <= k < used :: old(avail) + Sum(releases[..k]) < n
      ensures !ok ==> used == |releases| && avail < n
    {
      used := 0;
      if avail >= n {
        avail := avail - n;
        return true, 0;
      }
      while avail < n
        invariant used <= |releases| && avail == old(avail) + Sum(releases[..used])
        invariant forall k | 0 <= k < used :: old(avail) + Sum(releases[..k]) < n
        decreases |releases| - used
      {
        if used == |releases| {
          return false, used;
        }
        SumPrefixStep(releases, used);
        Release(releases[used]);
        used := used + 1;
      }
      avail := avail - n;
      return true, used;
    }

    method Release(n: int)
      modifies this
      ensures avail == old(avail) + n
    {
      avail := avail + n;
    }
  }

  /** The connection's write side: the frames written so far.  It may break after any number of
      them, and then stays broken. */
  class MuxConn {
    var out: seq<Frame>
    const lasts: Option<nat>  // how many frames it carries; None if it never breaks

    constructor (lasts: Option<nat>)
      ensures out == [] && this.lasts == lasts
    {
      out, this.lasts := [], lasts;
    }

    predicate Broken()
      reads this
    {
      lasts.Some? && |out| >= lasts.value
    }

    method WriteFrame(f: Frame) returns (ok: bool)
      modifies this
      ensures ok <==> !old(Broken()) && Writable(Mux, f)
      ensures out == if ok then old(out) + [f] else old(out)
    {
      if |f.payload| > MAX_PAYLOAD_SIZE || Broken() {
        return false;
      }
      out := out + [f];
      return true;
    }
  }

  datatype ReadEnd = More | AtEof | Broken

  /** An io.Reader for a request body: a read returns bytes, or (finitely often) nothing, and behind
      the last byte it delivers the end: io.EOF, or an error if the body is cut short. */
  class BodyReader {
    var rest: seq<byte>
    var idle: nat
    const failsAt: Option<nat>  // how many bytes are left when reading fails; None if it never does

    constructor (data: seq<byte>, idle: nat, failsAt: Option<nat>)
      requires failsAt.Some? ==> failsAt.value <= |data|
      ensures Valid() && rest == data && this.idle == idle && this.failsAt == failsAt
    {
      rest, this.idle, this.failsAt := data, idle, failsAt;
    }

    predicate Valid()
      reads this
    {
      failsAt.Some? ==> failsAt.value <= |rest|
    }

    /** What is still to be delivered before the end. */
    function Due(): nat
      requires Valid()
      reads this
    {
      |rest| - if failsAt.Some? then failsAt.value else 0
    }

    method Read(max: nat) returns (got: seq<byte>, end: ReadEnd)
      requires Valid() && max > 0
      modifies this
      ensures Valid() && |got| <= max && got + rest == old(rest)
      ensures !end.More? ==> Due() == 0 && (end.Broken? <==> failsAt.Some?)
      ensures end.More? && got == [] ==> idle < old(idle)
      ensures idle <= old(idle)
    {
      var due := Due();
      var n: nat :| n <= max && n <= due && (due > 0 && idle == 0 ==> n > 0);
      got, rest := rest[..n], rest[n..];
      assert got + rest == old(rest);
      var atOnce: bool := *;
      if Due() == 0 && (n == 0 || atOnce) {
        return got, if failsAt.Some? then Broken else AtEof;
      }
      if n == 0 {
        idle := idle - 1;
      }
      return got, More;
    }
  }

  const PHASE_REQUEST := 0

  /** StreamPhase.toInt32, which ignores its receiver. */
  function ToInt32(phase: int): int {
    PHASE_REQUEST
  }

  const PHASE_RESPONSE := 1

  /** A stream as a value: both pipes, both send windows, and whether it has been closed. */
  datatype StreamState = StreamState(req: Pipe, resp: Pipe, reqCredit: int, respCredit: int, closed: bool) {
    function Reset(reason: string): StreamState {
      var err := Some(IoError.Reset(reason));
      StreamState(req.CloseWrite(err), resp.CloseWrite(err), reqCredit, respCredit, true)
    }

    function Credited(payload: seq<byte>): StreamState {
      this.(reqCredit := reqCredit + Increment(payload), respCredit := respCredit + ResponseIncrement(payload))
    }
  }

  const NEW_STREAM := StreamState(NEW_PIPE, NEW_PIPE, PIPE_BUF_SIZE, PIPE_BUF_SIZE, false)

  /** The credit a WINDOW_UPDATE payload gives to the response direction. */
  function ResponseIncrement(payload: seq<byte>): int {
    if |payload| < WIN_UPDATE_PAYLOAD_SIZE || payload[4] == WIN_DIR_REQUEST then 0
    else Int32(Uint32(payload[..4]))
  }

  /** A WINDOW_UPDATE credits one direction, named by its last byte, with its whole signed increment. */
  lemma CreditGoesOneWay(st: StreamState, payload: seq<byte>)
    ensures |payload| < 5 ==> st.Credited(payload) == st
    ensures |payload| >= 5 ==>
              var inc := Int32(Uint32(payload[..4]));
              st.Credited(payload) == if payload[4] == 0 then st.(reqCredit := st.reqCredit + inc)
                                      else st.(respCredit := st.respCredit + inc)
  {
  }

  /** A reset ends whatever is still open with the reset error, behind the bytes already there, and
      leaves an end that came before it alone. */
  lemma ResetEndsBoth(st: StreamState, reason: string)
    requires st.req.Valid() && st.resp.Valid()
    ensures var r := st.Reset(reason);
            && r.closed && r.req.closed && r.resp.closed
            && r.req.contents == st.req.contents && r.resp.contents == st.resp.contents
            && r.req.EndError() == (if st.req.closed then st.req.EndError() else IoError.Reset(reason))
            && r.resp.EndError() == (if st.resp.closed then st.resp.EndError() else IoError.Reset(reason))
            && r.reqCredit == st.reqCredit && r.respCredit == st.respCredit
  {
  }

  class StreamObject {
    const id: uint32
    const conn: MuxConn
    const reqBody: StreamPipe
    const respBody: StreamPipe
    const sendWindowReq: WindowTracker
    const sendWindowResp: WindowTracker
    var phase: int
    var closed: bool

    /** The objects that make up the stream. */
    ghost function Repr(): (r: set<object>)
      reads this, reqBody, respBody
      ensures this in r && reqBody in r && respBody in r && sendWindowReq in r && sendWindowResp in r
    {
      {this, reqBody, respBody, sendWindowReq, sendWindowResp}
      + (if reqBody.buf == null then {} else {reqBody.buf})
      + (if respBody.buf == null then {} else {respBody.buf})
    }

    ghost predicate Valid()
      reads this, reqBody, respBody, Repr()
    {
      && reqBody.Valid() && respBody.Valid() && reqBody != respBody
      && (reqBody.buf != null ==> reqBody.buf != respBody.buf)
      && sendWindowReq != sendWindowResp
      && phase == PHASE_REQUEST
    }

    ghost function State(): StreamState
      requires Valid()
      reads this, Repr()
    {
      StreamState(reqBody.Abs(), respBody.Abs(), sendWindowReq.avail, sendWindowResp.avail, closed)
    }

    constructor (id: uint32, conn: MuxConn)
      ensures Valid() && this.id == id && this.conn == conn
      ensures fresh(Repr()) && State() == NEW_STREAM
    {
      this.id, this.conn := id, conn;
      reqBody := new StreamPipe(PIPE_BUF_SIZE);
      respBody := new StreamPipe(PIPE_BUF_SIZE);
      sendWindowReq := new WindowTracker(PIPE_BUF_SIZE);
      sendWindowResp := new WindowTracker(PIPE_BUF_SIZE);
      phase, closed := PHASE_REQUEST, false;
    }

    /** OnData always works on the request pipe: END_STREAM is meant to move the stream to the
        response phase, but toInt32 stores phaseRequest again, so respBody is never reached. */
    method OnData(f: Frame) returns (err: Option<IoError>)
      requires Valid()
      modifies this, reqBody, reqBody.buf, respBody, respBody.buf
      ensures Valid()
      ensures var (pipe, e) := CreditFlow.OnData(old(State()).req, f);
              err == e && State() == old(State()).(req := pipe)
      ensures respBody.buf == old(respBody.buf) && fresh(Repr() - old(Repr()))
    {
      hide Rings.View;
      var pipe := if phase == PHASE_REQUEST then reqBody else respBody;
      if |f.payload| > 0 {
        var n;
        n, err := pipe.WriteNonBlock(f.payload);
        if err.Some? {
          return;
        }
      }
      if f.EndsStream() {
        pipe.CloseWrite(None);
        if phase == PHASE_REQUEST {
          phase := ToInt32(PHASE_RESPONSE);
        }
      }
      return None;
    }

    /** OnRST ends both pipes with the reset error and closes the stream; what is buffered can still
        be read. */
    method OnRST(reason: string)
      requires Valid()
      modifies reqBody, respBody, `closed
      ensures Valid() && Repr() == old(Repr()) && State() == old(State()).Reset(reason)
    {
      hide Rings.View;
      reqBody.CloseWrite(Some(Reset(reason)));
      respBody.CloseWrite(Some(Reset(reason)));
      Close();
    }

    method Close()
      requires Valid()
      modifies `closed
      ensures Valid() && Repr() == old(Repr()) && State() == old(State()).(closed := true)
    {
      closed := true;
    }

    method OnWindowUpdate(payload: seq<byte>)
      requires Valid()
      modifies sendWindowReq, sendWindowResp
      ensures Valid() && Repr() == old(Repr()) && State() == old(State()).Credited(payload)
    {
      if |payload| < WIN_UPDATE_PAYLOAD_SIZE {
        return;
      }
      var increment := Int32(Uint32(payload[0..4]));
      if payload[4] == WIN_DIR_REQUEST {
        sendWindowReq.Release(increment);
      } else {
        sendWindowResp.Release(increment);
      }
    }

    method SendData(data: seq<byte>, flags: byte) returns (ok: bool)
      modifies conn
      ensures ok <==> !old(conn.Broken()) && |data| <= MAX_PAYLOAD_SIZE
      ensures conn.out == if ok then old(conn.out) + [DataFrame(id, data, flags)] else old(conn.out)
    {
      ok := conn.WriteFrame(Frame(id, TYPE_DATA, flags, data));
    }

    /** The loop's middle: wait for the chunk's credit, then send it. */
    method SendWithCredit(chunk: seq<byte>, releases: seq<int>, used: nat) returns (ok: bool, used': nat)
      requires used <= |releases| && |chunk| <= DATA_CHUNK_SIZE
      modifies conn, sendWindowReq
      ensures used <= used' <= |releases|
      ensures conn.out == if ok then old(conn.out) + [DataFrame(id, chunk, 0)] else old(conn.out)
      ensures var gained := Sum(releases[..used']) - Sum(releases[..used]);
              var spent := old(sendWindowReq.avail) + gained - sendWindowReq.avail;
              0 <= spent <= |chunk| && (ok ==> spent == |chunk|)
              && (!ok ==> conn.Broken() || (spent == 0 && used' == |releases| && sendWindowReq.avail < |chunk|))
    {
      hide Sum;
      var more;
      ok, more := sendWindowReq.Acquire(|chunk|, releases[used..]);
      SumSplit(releases, used, more);
      used' := used + more;
      if ok {
        ok := SendData(chunk, 0);
      }
    }

    /** The loop's end: END_STREAM after the whole body. */
    method SendEnd(ghost data: seq<byte>, ghost was: seq<Frame>, ghost sent: seq<Frame>) returns (ok: bool)
      requires conn.out == was + sent && ChunkFrames(id, sent) && Payloads(sent) == data
      modifies conn
      ensures was <= conn.out && BodySent(id, conn.out[|was|..], data, ok, |data|)
      ensures (ok <==> !old(conn.Broken())) && (!ok ==> conn.Broken())
    {
      ok := SendData([], FLAG_END_STREAM);
      BodyEnds(id, sent, data, ok);
      hide Payloads, ChunkFrames, BodySent, DataFrame;
      assert conn.out == was + if ok then sent + [DataFrame(id, [], FLAG_END_STREAM)] else sent;
    }

    /** SendBodyWithFlowControl in the request direction.  On success the frames written are the
        body cut into non-empty chunks of at most DATA_CHUNK_SIZE, then one empty END_STREAM, and
        exactly the body's size was taken from the window; after an error they are chunks of a
        prefix, without END_STREAM, and no more than one unsent chunk of credit is gone.  An error
        has one of three causes: the connection is broken, the body could not be read to its end, or
        the call was cancelled while there was too little credit for the chunk in hand.  So a body
        that ends cleanly, over a connection that holds, with credit for all of it, is sent. */
    method SendBodyWithFlowControl(body: BodyReader?, releases: seq<int>) returns (ok: bool, used: nat)
      requires body != null ==> body.Valid()
      modifies conn, sendWindowReq, body
      ensures used <= |releases| && old(conn.out) <= conn.out
      ensures BodySent(id, conn.out[|old(conn.out)|..], if body == null then [] else old(body.rest), ok,
                       old(sendWindowReq.avail) + Sum(releases[..used]) - sendWindowReq.avail)
      ensures ok && body != null ==> body.failsAt.None?
      ensures !ok ==> || conn.Broken()
                      || (body != null && body.Valid() && body.failsAt.Some? && body.Due() == 0)
                      || (body != null && used == |releases| && sendWindowReq.avail <
                          |old(body.rest)| - |body.rest| - |Payloads(conn.out[|old(conn.out)|..])|)
      ensures conn.lasts.None? && body == null ==> ok
      ensures conn.lasts.None? && body != null && body.failsAt.None? ==>
                ok || old(sendWindowReq.avail) + Sum(releases[..used]) < |old(body.rest)|
    {
      hide Sum, Payloads, ChunkFrames, BodySent, DataFrame;
      used := 0;
      ghost var sent: seq<Frame> := [];
      SumOfNone(releases);
      NothingSent(id);
      if body == null {
        assert conn.out == old(conn.out) + sent;
        ok := SendEnd([], old(conn.out), sent);
        return;
      }
      ghost var data := body.rest;
      while true
        invariant used <= |releases|
        invariant conn.out == old(conn.out) + sent && ChunkFrames(id, sent)
        invariant body.Valid() && Payloads(sent) + body.rest == data
        invariant sendWindowReq.avail == old(sendWindowReq.avail) + Sum(releases[..used]) - |Payloads(sent)|
        decreases |body.rest|, body.idle
      {
        var chunk, end := body.Read(DATA_CHUNK_SIZE);
        assert |Payloads(sent)| + |chunk| + |body.rest| == |data|;
        if |chunk| > 0 {
          ok, used := SendWithCredit(chunk, releases, used);
          if !ok {
            BodyStops(id, old(conn.out), sent, conn.out, data,
                      old(sendWindowReq.avail) + Sum(releases[..used]) - sendWindowReq.avail);
            return;
          }
          ChunkSent(id, sent, chunk, body.rest, data);
          sent := sent + [DataFrame(id, chunk, 0)];
        }
        if end.AtEof? {
          ok := SendEnd(data, old(conn.out), sent);
          return;
        } else if end.Broken? {
          BodyStops(id, old(conn.out), sent, conn.out, data, |Payloads(sent)|);
          return false, used;
        }
      }
    }
  }

  /** What a call of SendBodyWithFlowControl that wrote `sent` and spent `spent` credit has done. */
  ghost predicate BodySent(id: uint32, sent: seq<Frame>, data: seq<byte>, ok: bool, spent: int) {
    if ok then
      && sent != [] && sent[|sent| - 1] == DataFrame(id, [], FLAG_END_STREAM)
      && ChunkFrames(id, sent[..|sent| - 1]) && Payloads(sent) == data && spent == |data|
    else
      && ChunkFrames(id, sent) && Payloads(sent) <= data
      && |Payloads(sent)| <= spent <= |Payloads(sent)| + DATA_CHUNK_SIZE
  }

  lemma NothingSent(id: uint32)
    ensures ChunkFrames(id, []) && Payloads([]) == []
  {
  }

  lemma ChunkSent(id: uint32, sent: seq<Frame>, chunk: seq<byte>, rest: seq<byte>, data: seq<byte>)
    requires ChunkFrames(id, sent) && 0 < |chunk| <= DATA_CHUNK_SIZE && Payloads(sent) + (chunk + rest) == data
    ensures ChunkFrames(id, sent + [DataFrame(id, chunk, 0)])
    ensures Payloads(sent + [DataFrame(id, chunk, 0)]) == Payloads(sent) + chunk
    ensures Payloads(sent + [DataFrame(id, chunk, 0)]) + rest == data
  {
    PayloadsAppend(sent, DataFrame(id, chunk, 0));
    assert (Payloads(sent) + chunk) + rest == Payloads(sent) + (chunk + rest);
  }

  lemma BodyEnds(id: uint32, sent: seq<Frame>, data: seq<byte>, ok: bool)
    requires ChunkFrames(id, sent) && Payloads(sent) == data
    ensures BodySent(id, if ok then sent + [DataFrame(id, [], FLAG_END_STREAM)] else sent, data, ok, |data|)
  {
    var end := DataFrame(id, [], FLAG_END_STREAM);
    PayloadsAppend(sent, end);
    assert (sent + [end])[..|sent|] == sent;
  }

  lemma BodyStops(id: uint32, was: seq<Frame>, sent: seq<Frame>, now: seq<Frame>, data: seq<byte>, spent: int)
    requires now == was + sent && ChunkFrames(id, sent) && Payloads(sent) <= data
    requires |Payloads(sent)| <= spent <= |Payloads(sent)| + DATA_CHUNK_SIZE
    ensures was <= now && BodySent(id, now[|was|..], data, false, spent) && now[|was|..] == sent
  {
    assert now[|was|..] == sent;
  }

  ghost predicate ChunkFrames(id: uint32, fs: seq<Frame>) {
    forall i | 0 <= i < |fs| ::
      fs[i] == DataFrame(id, fs[i].payload, 0) && 0 < |fs[i].payload| <= DATA_CHUNK_SIZE
  }

  lemma {:induction false} SumSplit(ns: seq<int>, i: nat, n: nat)
    requires i + n <= |ns|
    ensures Sum(ns[..i + n]) == Sum(ns[..i]) + Sum(ns[i..][..n])
    decreases n
  {
    if n > 0 {
      SumSplit(ns, i, n - 1);
      SumPrefixStep(ns, i + n - 1);
      SumPrefixStep(ns[i..], n - 1);
    }
  }

  /** Go's int32 addition. */
  function AddInt32(a: int, b: int): int {
    Int32((a + b) % 0x1_0000_0000)
  }

  class WindowUpdateReader {
    const pipe: StreamPipe
    const conn: MuxConn
    const sid: uint32
    var pendingInc: int

    constructor (pipe: StreamPipe, conn: MuxConn, sid: uint32)
      ensures this.pipe == pipe && this.conn == conn && this.sid == sid && pendingInc == 0
    {
      this.pipe, this.conn, this.sid, pendingInc := pipe, conn, sid, 0;
    }

    /** Read drains the pipe; once a batch has been consumed one WINDOW_UPDATE carries all of it,
        unless its write fails, which leaves it pending. */
    method Read(p: array<byte>, ghost st: Stream) returns (r: ReadOutcome)
      requires pipe.Valid() && p != pipe.buf
      modifies this, pipe, p, conn
      ensures pipe.Valid() && pipe.buf == old(pipe.buf)
      ensures (pipe.Abs(), r) == old(pipe.Abs()).Read(p.Length, old(pipe.Abs()).EndError())
      ensures r.Data? ==> r.bytes <= p[..]
      ensures var pending := if r.Data? && r.bytes != [] then AddInt32(old(pendingInc), |r.bytes|) else old(pendingInc);
              var due := r.Data? && r.bytes != [] && pending >= WINDOW_UPDATE_BATCH;
              var f := Frame(sid, TYPE_WINDOW_UPDATE, 0, UpdatePayload(pending));
              && pendingInc == (if due && !old(conn.Broken()) then 0 else pending)
              && conn.out == (if due && !old(conn.Broken()) then old(conn.out) + [f] else old(conn.out))
      ensures old(Reads(st)) && CanAct(st, ReadPipe(p.Length)) ==>
              var st' := Act(st, ReadPipe(p.Length));
              && (old(conn.Broken()) || !CanAct(st', Event.Flush) ==> Reads(st') && conn.out == old(conn.out))
              && (!old(conn.Broken()) && CanAct(st', Event.Flush) ==>
                    Reads(Act(st', Event.Flush)) && conn.out == old(conn.out) + BwdOut(st', sid, Event.Flush))
    {
      hide Rings.View, UpdatePayload;
      r := pipe.Read(p);
      ReaderIsReadPipe(st, p.Length);
      if r.Data? && |r.bytes| > 0 {
        pendingInc := AddInt32(pendingInc, |r.bytes|);
        if pendingInc >= WINDOW_UPDATE_BATCH {
          Flush();
        }
      }
    }

    /** The reader's part of the protocol's state. */
    ghost predicate Reads(st: Stream)
      requires pipe.Valid()
      reads this, pipe, pipe.buf
    {
      && st.client.pipe == pipe.Abs() && st.client.pendingInc == pendingInc
      && pendingInc >= 0 && pipe.cap == PIPE_BUF_SIZE
    }

    /** A failed write keeps pendingInc. */
    method Flush()
      modifies `pendingInc, conn
      ensures var f := Frame(sid, TYPE_WINDOW_UPDATE, 0, UpdatePayload(old(pendingInc)));
              var sent := old(pendingInc) > 0 && !old(conn.Broken());
              && pendingInc == (if sent then 0 else old(pendingInc))
              && conn.out == (if sent then old(conn.out) + [f] else old(conn.out))
    {
      if pendingInc <= 0 {
        return;
      }
      var ok := conn.WriteFrame(Frame(sid, TYPE_WINDOW_UPDATE, 0, UpdatePayload(pendingInc)));
      if !ok {
        return;
      }
      pendingInc := 0;
    }
  }

  /** With the ledger's bound on pendingInc the int32 addition of a read does not wrap, and the Flush
      step is enabled behind a ReadPipe step exactly when the sum reaches a batch. */
  lemma ReaderIsReadPipe(st: Stream, want: nat)
    ensures Readable(st, want) ==> ReadSteps(st, want)
  {
    hide UpdatePayload;
  }

  predicate Readable(st: Stream, want: nat) {
    && CanAct(st, ReadPipe(want)) && 0 <= st.client.pendingInc
    && st.client.pipe.Valid() && st.client.pipe.cap == PIPE_BUF_SIZE
  }

  ghost predicate ReadSteps(st: Stream, want: nat)
    requires CanAct(st, ReadPipe(want))
  {
    var (p, r) := st.client.pipe.Read(want, st.client.pipe.EndError());
    var st' := Act(st, ReadPipe(want));
    var pending := if r.Data? then AddInt32(st.client.pendingInc, |r.bytes|) else st.client.pendingInc;
    var due := CanAct(st', Event.Flush);
    && st'.client.pipe == p && st'.client.pendingInc == pending && (due <==> pending >= WINDOW_UPDATE_BATCH)
    && (due ==> var st2 := Act(st', Event.Flush);
                && r.Data? && r.bytes != [] && st2.client.pipe == p && st2.client.pendingInc == 0
                && BwdOut(st', 0, Event.Flush)[0].payload == UpdatePayload(pending))
  }
}
