/**
 The client's table of request streams (internal/mux/client): the dispatcher's lookup, the opening of
 a stream by its HEADERS, and the frames of one stream never reaching another's objects.
 */
module MuxClient {
  import opened Bytes
  import opened Frames
  import opened Rings
  import opened CreditFlow
  import opened MuxStream

  /** The stream lives inside a set of objects. */
  ghost predicate Owned(s: StreamObject, id: uint32, objects: set<object>)
    reads objects
  {
    && s in objects && s.reqBody in objects && s.respBody in objects && s.Repr() <= objects
    && s.id == id && s.Valid()
  }

  /** A table of streams with their own objects: nothing is shared between two ids. */
  ghost predicate Table(streams: map<uint32, StreamObject>, footprint: map<uint32, set<object>>, objects: set<object>)
    reads objects
  {
    && footprint.Keys == streams.Keys
    && (forall id <- footprint :: footprint[id] <= objects)
    && (forall id <- footprint :: Owned(streams[id], id, footprint[id]))
    && (forall i <- footprint, j <- footprint :: i != j ==> footprint[i] !! footprint[j])
  }

  /** The streams of a table, as values. */
  ghost function States(streams: map<uint32, StreamObject>, footprint: map<uint32, set<object>>, objects: set<object>)
    : map<uint32, StreamState>
    requires Table(streams, footprint, objects)
    reads objects
  {
    map id | id in footprint :: StateIn(streams[id], id, footprint[id])
  }

  lemma TableWith(streams: map<uint32, StreamObject>, footprint: map<uint32, set<object>>, objects: set<object>,
                  id: uint32, s: StreamObject, own: set<object>)
    requires Table(streams, footprint, objects)
    requires id !in streams && Owned(s, id, own) && own !! objects
    ensures Table(streams[id := s], footprint[id := own], objects + own)
    ensures States(streams[id := s], footprint[id := own], objects + own)
         == States(streams, footprint, objects)[id := StateIn(s, id, own)]
  {
    hide Owned, StateIn;
  }

  lemma TableWithout(streams: map<uint32, StreamObject>, footprint: map<uint32, set<object>>, objects: set<object>,
                     id: uint32)
    requires Table(streams, footprint, objects)
    ensures Table(streams - {id}, footprint - {id}, objects)
    ensures States(streams - {id}, footprint - {id}, objects) == States(streams, footprint, objects) - {id}
  {
    hide Owned, StateIn;
  }

  /** A table but for one stream, whose footprint has grown by other objects than the table's. */
  ghost predicate NearTable(streams: map<uint32, StreamObject>, footprint: map<uint32, set<object>>,
                            objects: set<object>, id: uint32, grown: set<object>)
    reads objects, grown
  {
    && footprint.Keys == streams.Keys && id in footprint
    && (forall j <- footprint :: footprint[j] <= objects)
    && (forall j <- footprint | j != id :: Owned(streams[j], j, footprint[j]))
    && (forall i <- footprint, j <- footprint :: i != j ==> footprint[i] !! footprint[j])
    && Owned(streams[id], id, grown) && (grown - footprint[id]) !! objects
  }

  ghost function NearStates(streams: map<uint32, StreamObject>, footprint: map<uint32, set<object>>,
                           objects: set<object>, id: uint32, grown: set<object>): map<uint32, StreamState>
    requires NearTable(streams, footprint, objects, id, grown)
    reads objects, grown
  {
    map j | j in footprint :: StateIn(streams[j], j, if j == id then grown else footprint[j])
  }

  lemma TableGrown(streams: map<uint32, StreamObject>, footprint: map<uint32, set<object>>, objects: set<object>,
                   id: uint32, grown: set<object>)
    requires NearTable(streams, footprint, objects, id, grown)
    ensures Table(streams, footprint[id := grown], objects + grown)
    ensures States(streams, footprint[id := grown], objects + grown)
         == NearStates(streams, footprint, objects, id, grown)
  {
    hide Owned, StateIn;
  }

  class EdgeClient {
    var reqStreams: map<uint32, StreamObject>
    const conn: MuxConn
    const hasHandler: bool
    ghost var footprint: map<uint32, set<object>>  // each stream's own objects
    ghost var objects: set<object>                 // all of them

    ghost predicate Valid()
      reads this, objects
    {
      this !in objects && conn !in objects && Table(reqStreams, footprint, objects)
    }

    /** What the client holds for an id: the state of its stream, if it serves one. */
    ghost function StateOf(id: uint32): (st: Option<StreamState>)
      requires Valid()
      reads this, objects
      ensures st.Some? <==> id in reqStreams
    {
      var states := States(reqStreams, footprint, objects);
      if id in states then Some(states[id]) else None
    }

    constructor (conn: MuxConn, hasHandler: bool)
      ensures Valid() && reqStreams == map[] && this.conn == conn && this.hasHandler == hasHandler
    {
      this.conn, this.hasHandler := conn, hasHandler;
      reqStreams, footprint, objects := map[], map[], {};
    }

    /** handleNewRequest: the stream is in the table before any later frame is read.  Without a
        handler, or when its HEADERS do not parse, it is refused with an RST and not kept; `rst` is
        that frame's encoded reason. */
    method HandleNewRequest(f: Frame, parses: bool, rst: seq<byte>) returns (served: bool)
      requires Valid() && f.streamId !in reqStreams
      modifies this, conn
      ensures Valid() && (served <==> hasHandler && parses)
      ensures StateOf(f.streamId) == if served then Some(NEW_STREAM) else None
      ensures forall j: uint32 | j != f.streamId :: StateOf(j) == old(StateOf(j))
      ensures var refusal := Frame(f.streamId, TYPE_RST, 0, rst);
              conn.out == old(conn.out) + if served then [] else Sendable(Some(refusal), old(conn.Broken()))
    {
      hide Owned, Table, States, StateIn, StreamObject.Valid, StreamObject.Repr, StreamObject.State;
      var sent;
      served := hasHandler && parses;
      if hasHandler {
        var s := new StreamObject(f.streamId, conn);
        Add(s);
      }
      if !served {
        sent := conn.WriteFrame(Frame(f.streamId, TYPE_RST, 0, rst));
        Remove(f.streamId);
      }
    }

    method Add(s: StreamObject)
      requires Valid() && s.Valid() && s.id !in reqStreams && s.Repr() !! objects && {this, conn} !! s.Repr()
      modifies this
      ensures Valid() && reqStreams == old(reqStreams)[s.id := s] && StateOf(s.id) == Some(old(s.State()))
      ensures forall j: uint32 | j != s.id :: StateOf(j) == old(StateOf(j))
    {
      OwnsItself(s);
      hide Owned, Table, States, StateIn, StreamObject.Valid, StreamObject.Repr, StreamObject.State;
      Insert(s);
    }

    method Insert(s: StreamObject)
      requires Valid() && s.id !in reqStreams && Owned(s, s.id, s.Repr())
      requires s.Repr() !! objects && {this, conn} !! s.Repr()
      modifies this
      ensures Valid() && reqStreams == old(reqStreams)[s.id := s]
      ensures States(reqStreams, footprint, objects)
           == old(States(reqStreams, footprint, objects))[s.id := old(StateIn(s, s.id, s.Repr()))]
    {
      hide Owned, Table, States, StateIn, StreamObject.Valid, StreamObject.Repr;
      TableWith(reqStreams, footprint, objects, s.id, s, s.Repr());
      footprint := footprint[s.id := s.Repr()];
      objects := objects + s.Repr();
      reqStreams := reqStreams[s.id := s];
    }

    /** OnData on one stream. */
    method Data(f: Frame) returns (err: Option<IoError>)
      requires Valid() && f.streamId in reqStreams
      modifies `footprint, `objects, objects
      ensures Valid() && (StateOf(f.streamId).value, err) == WithData(old(StateOf(f.streamId)).value, f)
      ensures forall j: uint32 | j != f.streamId :: StateOf(j) == old(StateOf(j))
    {
      hide WithData, Owned, Table, States, StateIn, NearTable, NearStates;
      ghost var grown;
      err, grown := Put(f);
      Regrow(f.streamId, grown);
    }

    method Put(f: Frame) returns (err: Option<IoError>, ghost grown: set<object>)
      requires Valid() && f.streamId in reqStreams
      modifies objects
      ensures {this, conn} !! objects + grown && NearTable(reqStreams, footprint, objects, f.streamId, grown)
      ensures var was := old(States(reqStreams, footprint, objects));
              var now := NearStates(reqStreams, footprint, objects, f.streamId, grown);
              && f.streamId in now && (now[f.streamId], err) == WithData(was[f.streamId], f)
              && now == was[f.streamId := now[f.streamId]]
    {
      hide OnData, WithData, Owned, StateIn, StreamObject.Valid, StreamObject.Repr, StreamObject.State;
      err, grown := OnDataOwned(reqStreams[f.streamId], f, footprint[f.streamId]);
    }

    /** Only ghost state: the objects of one stream have become more. */
    ghost method Regrow(id: uint32, grown: set<object>)
      requires {this, conn} !! objects + grown && NearTable(reqStreams, footprint, objects, id, grown)
      modifies `footprint, `objects
      ensures Valid()
      ensures States(reqStreams, footprint, objects) == old(NearStates(reqStreams, footprint, objects, id, grown))
    {
      hide Owned, Table, NearTable, States, NearStates;
      TableGrown(reqStreams, footprint, objects, id, grown);
      footprint := footprint[id := grown];
      objects := objects + grown;
    }

    /** OnRST on one stream, which leaves the table. */
    method Reset(id: uint32, reason: string)
      requires Valid() && id in reqStreams
      modifies `reqStreams, `footprint, objects
      ensures Valid() && reqStreams == old(reqStreams) - {id}
      ensures var s := old(reqStreams)[id]; s.Valid() && s.State() == old(StateOf(id)).value.Reset(reason)
      ensures forall j: uint32 | j != id :: StateOf(j) == old(StateOf(j))
    {
      hide Owned, StateIn, StreamObject.Valid, StreamObject.Repr, StreamObject.State;
      ghost var own := footprint[id];
      OnRstOwned(reqStreams[id], id, reason, own);
      OwnedState(reqStreams[id], id, own);
      Remove(id);
    }

    /** removeReqStream */
    method Remove(id: uint32)
      requires Valid()
      modifies `reqStreams, `footprint
      ensures Valid() && reqStreams == old(reqStreams) - {id} && StateOf(id) == None
      ensures forall j: uint32 | j != id :: StateOf(j) == old(StateOf(j))
    {
      hide Owned, Table, States, StateIn;
      TableWithout(reqStreams, footprint, objects, id);
      reqStreams := reqStreams - {id};
      footprint := footprint - {id};
    }

    /** OnWindowUpdate on one stream. */
    method WindowUpdate(f: Frame)
      requires Valid() && f.streamId in reqStreams
      modifies objects
      ensures Valid() && StateOf(f.streamId) == Some(old(StateOf(f.streamId)).value.Credited(f.payload))
      ensures forall j: uint32 | j != f.streamId :: StateOf(j) == old(StateOf(j))
    {
      hide Owned, StateIn, StreamObject.Valid, StreamObject.Repr, StreamObject.State;
      OnWindowUpdateOwned(reqStreams[f.streamId], f, footprint[f.streamId]);
    }

    /** Second HEADERS that do not parse: the stream is closed but stays in the table. */
    method CloseStream(id: uint32)
      requires Valid() && id in reqStreams
      modifies objects
      ensures Valid() && StateOf(id) == Some(old(StateOf(id)).value.(closed := true))
      ensures forall j: uint32 | j != id :: StateOf(j) == old(StateOf(j))
    {
      hide Owned, StateIn, StreamObject.Valid, StreamObject.Repr, StreamObject.State;
      CloseOwned(reqStreams[id], id, footprint[id]);
    }

    /** dispatchLoop's routing of one stream frame and dispatchReqStream: the frame acts on the
        stream of its id as Dispatched says, and on no other, and is answered as Answer says.  What
        its JSON payload says is given by `parses` and `reason`; `rst` and `goaway` are the encoded
        reasons of an answer.  `ends` means that the dispatch loop ends with an error. */
    method Dispatch(f: Frame, parses: bool, reason: string, rst: seq<byte>, goaway: seq<byte>) returns (ends: bool)
      requires Valid()
      modifies this, objects, conn
      ensures Valid() && StateOf(f.streamId)
                      == Dispatched(old(StateOf(f.streamId)), f, hasHandler && parses, parses)
      ensures forall j: uint32 | j != f.streamId :: StateOf(j) == old(StateOf(j))
      ensures f.streamId != CONTROL_STREAM_ID && f.typ == TYPE_RST && f.streamId in old(reqStreams) ==>
                var s := old(reqStreams)[f.streamId];
                s.Valid() && s.State() == old(StateOf(f.streamId)).value.Reset(reason)
      ensures var answer := Answer(old(StateOf(f.streamId)), f, hasHandler && parses, parses, rst, goaway);
              && conn.out == old(conn.out) + Sendable(answer, old(conn.Broken()))
              && (ends <==> answer.Some? && (if f.typ == TYPE_DATA then Sendable(answer, old(conn.Broken())) == []
                                             else old(StateOf(f.streamId)).None?))
    {
      hide WithData, Owned, Table, States, StateIn, EdgeClient.StateOf, StreamObject.Valid, StreamObject.State;
      ends := false;
      if f.streamId == CONTROL_STREAM_ID {
        return;
      }
      if f.streamId !in reqStreams {
        if f.typ == TYPE_HEADERS {
          var served := HandleNewRequest(f, parses, rst);
          ends := !served;
        }
      } else if f.typ == TYPE_HEADERS {
        if !parses {
          var sent := conn.WriteFrame(Frame(f.streamId, TYPE_RST, 0, rst));
          CloseStream(f.streamId);
        }
      } else if f.typ == TYPE_DATA {
        var err := Data(f);
        if err.Some? {
          var sent := conn.WriteFrame(Frame(CONTROL_STREAM_ID, TYPE_GOAWAY, 0, goaway));
          ends := !sent;
        }
      } else if f.typ == TYPE_WINDOW_UPDATE {
        WindowUpdate(f);
      } else if f.typ == TYPE_RST {
        Reset(f.streamId, reason);
      }
    }
  }

  method OnDataOwned(s: StreamObject, f: Frame, ghost footprint: set<object>)
    returns (err: Option<IoError>, ghost grown: set<object>)
    requires Owned(s, f.streamId, footprint)
    modifies footprint
    ensures Owned(s, f.streamId, grown) && fresh(grown - footprint)
    ensures (StateIn(s, f.streamId, grown), err) == WithData(old(StateIn(s, f.streamId, footprint)), f)
  {
    hide CreditFlow.OnData;
    err := s.OnData(f);
    grown := footprint + s.Repr();
  }

  method OnRstOwned(s: StreamObject, ghost id: uint32, reason: string, ghost footprint: set<object>)
    requires Owned(s, id, footprint)
    modifies footprint
    ensures Owned(s, id, footprint)
    ensures StateIn(s, id, footprint) == old(StateIn(s, id, footprint)).Reset(reason)
  {
    s.OnRST(reason);
  }

  method CloseOwned(s: StreamObject, ghost id: uint32, ghost footprint: set<object>)
    requires Owned(s, id, footprint)
    modifies footprint
    ensures Owned(s, id, footprint)
    ensures StateIn(s, id, footprint) == old(StateIn(s, id, footprint)).(closed := true)
  {
    s.Close();
  }

  method OnWindowUpdateOwned(s: StreamObject, f: Frame, ghost footprint: set<object>)
    requires Owned(s, f.streamId, footprint)
    modifies footprint
    ensures Owned(s, f.streamId, footprint)
    ensures StateIn(s, f.streamId, footprint) == old(StateIn(s, f.streamId, footprint)).Credited(f.payload)
  {
    s.OnWindowUpdate(f.payload);
  }

  /** A DATA frame on a stream: only its request pipe changes. */
  function WithData(st: StreamState, f: Frame): (StreamState, Option<IoError>) {
    var (pipe, err) := OnData(st.req, f);
    (st.(req := pipe), err)
  }

  /** What a frame does to the stream of its id; `opens` says that new HEADERS are served. */
  function Dispatched(st: Option<StreamState>, f: Frame, opens: bool, parses: bool): Option<StreamState> {
    if f.streamId == CONTROL_STREAM_ID then st
    else if st.None? then (if f.typ == TYPE_HEADERS && opens then Some(NEW_STREAM) else None)
    else if f.typ == TYPE_HEADERS then Some(if parses then st.value else st.value.(closed := true))
    else if f.typ == TYPE_DATA then Some(WithData(st.value, f).0)
    else if f.typ == TYPE_WINDOW_UPDATE then Some(st.value.Credited(f.payload))
    else if f.typ == TYPE_RST then None
    else st
  }

  /** How it is answered: HEADERS that are not served with RST, a flow control violation with GOAWAY. */
  function Answer(st: Option<StreamState>, f: Frame, opens: bool, parses: bool, rst: seq<byte>, goaway: seq<byte>)
    : Option<Frame>
  {
    if f.streamId == CONTROL_STREAM_ID then None
    else if f.typ == TYPE_HEADERS && !(if st.None? then opens else parses)
      then Some(Frame(f.streamId, TYPE_RST, 0, rst))
    else if f.typ == TYPE_DATA && st.Some? && WithData(st.value, f).1.Some?
      then Some(Frame(CONTROL_STREAM_ID, TYPE_GOAWAY, 0, goaway))
    else None
  }

  /** The client answers exactly HEADERS it does not serve, with an RST of that stream, and DATA that
      does not fit its stream's pipe or comes after its end, with a GOAWAY of the connection. */
  lemma AnsweredExactly(st: Option<StreamState>, f: Frame, opens: bool, parses: bool, rst: seq<byte>, goaway: seq<byte>)
    requires st.Some? ==> st.value.req.Valid()
    ensures var refused := f.typ == TYPE_HEADERS && if st.None? then !opens else !parses;
            var violates := && f.typ == TYPE_DATA && st.Some? && f.payload != []
                            && (st.value.req.closed || |st.value.req.contents + f.payload| > st.value.req.cap);
            var answer := Answer(st, f, opens, parses, rst, goaway);
            && (answer.Some? <==> f.streamId != CONTROL_STREAM_ID && (refused || violates))
            && (answer.Some? && refused ==> answer.value.typ == TYPE_RST && answer.value.streamId == f.streamId)
            && (answer.Some? && violates ==>
                  answer.value.typ == TYPE_GOAWAY && answer.value.streamId == CONTROL_STREAM_ID)
  {
    if st.Some? {
      DataGoesInWhole(st.value.req, f);
    }
  }

  /** What of an answer gets onto the connection. */
  function Sendable(answer: Option<Frame>, broken: bool): seq<Frame> {
    if answer.None? || broken || !Writable(Mux, answer.value) then [] else [answer.value]
  }

  function ReqPipe(st: Option<StreamState>): Option<Pipe> {
    if st.Some? then Some(st.value.req) else None
  }

  function Served(c: Client): Option<Pipe> {
    if c.reg.Registered? then Some(c.pipe) else None
  }

  /** The object's dispatch is the protocol's delivery step, in which every new request is served. */
  lemma DispatchIsClientReceive(link: Stream, f: Frame, st: Option<StreamState>, parses: bool)
    requires f.streamId != CONTROL_STREAM_ID && Served(link.client) == ReqPipe(st)
    ensures Served(ClientReceive(link, f).client) == ReqPipe(Dispatched(st, f, true, parses))
    ensures ClientReceive(link, f).client.delivered ==
            if f.typ == TYPE_HEADERS && !link.client.reg.Registered? then [] else link.client.delivered
  {
  }

  lemma OwnedState(s: StreamObject, id: uint32, objects: set<object>)
    requires Owned(s, id, objects)
    ensures s.Valid() && s.State() == StateIn(s, id, objects)
  {
  }

  lemma OwnsItself(s: StreamObject)
    requires s.Valid()
    ensures Owned(s, s.id, s.Repr()) && StateIn(s, s.id, s.Repr()) == s.State()
  {
  }

  ghost function StateIn(s: StreamObject, id: uint32, objects: set<object>): StreamState
    requires Owned(s, id, objects)
    reads objects
  {
    s.State()
  }
}
