/**
 The HTTP reverse proxy's reply path (internal/mux_http/server): an edge session accumulates the
 head and body frames of many requests at once, the broker hands each finished reply to the
 requester that still waits for it.
 */
module HttpReplies {
  import opened Bytes

  datatype Head = Head(status: int, headers: map<string, string>)

  datatype Reply = Complete(head: Head, body: seq<byte>) | EdgeError(code: int, message: string)

  datatype Accumulator = Accumulator(head: Head, body: seq<byte>)

  datatype Action =
    | Register                            // SendRequest enters the request into the pending table
    | OnHead(head: Head)
    | OnBody(chunk: seq<byte>)
    | OnEnd
    | OnError(code: int, message: string)
    | Receive                             // the requester takes its reply and leaves the table
    | GiveUp                              // its timeout or cancellation

  datatype Event = Event(id: uint32, action: Action)

  /** What the server holds about one request id: the session's accumulator, the pending entry with
      the contents of its one-place channel, and (a history variable) the replies it was given. */
  datatype Slot = Slot(acc: Option<Accumulator>, channel: Option<seq<Reply>>, got: seq<Reply>)

  const EMPTY := Slot(None, None, [])

  /** Sending to a full channel blocks the read loop. */
  predicate CanDeliver(s: Slot) {
    s.channel.Some? ==> s.channel.value == []
  }

  function Deliver(s: Slot, r: Reply): Slot {
    if s.channel.None? then s else s.(channel := Some(s.channel.value + [r]))
  }

  predicate Can(s: Slot, a: Action) {
    match a
    case Register => s.channel.None?
    case OnEnd => s.acc.Some? ==> CanDeliver(s)
    case OnError(_, _) => CanDeliver(s)
    case Receive => s.channel.Some? && s.channel.value != []
    case GiveUp => s.channel.Some?
    case _ => true
  }

  function Next(s: Slot, a: Action): Slot
    requires Can(s, a)
  {
    match a
    case Register => s.(channel := Some([]))
    case OnHead(head) => s.(acc := Some(Accumulator(head, [])))
    case OnBody(chunk) =>
      if s.acc.None? then s else s.(acc := Some(s.acc.value.(body := s.acc.value.body + chunk)))
    case OnEnd =>
      if s.acc.None? then s else Deliver(s.(acc := None), Complete(s.acc.value.head, s.acc.value.body))
    case OnError(code, message) => Deliver(s.(acc := None), EdgeError(code, message))
    case Receive => s.(channel := None, got := s.got + [s.channel.value[0]])
    case GiveUp => s.(channel := None)
  }

  // ---- the session and broker objects ----

  class ReplyServer {
    var httpRespBuf: map<uint32, Accumulator>
    var pending: map<uint32, seq<Reply>>
    ghost var got: map<uint32, seq<Reply>>

    ghost function At(id: uint32): Slot
      reads this
    {
      Slot(if id in httpRespBuf then Some(httpRespBuf[id]) else None,
           if id in pending then Some(pending[id]) else None,
           if id in got then got[id] else [])
    }

    constructor ()
      ensures forall id: uint32 :: At(id) == EMPTY
    {
      httpRespBuf, pending, got := map[], map[], map[];
    }

    /** handleHTTPResponseHead */
    method HandleHead(id: uint32, head: Head)
      modifies this
      ensures At(id) == Next(old(At(id)), OnHead(head))
      ensures forall j: uint32 | j != id :: At(j) == old(At(j))
    {
      httpRespBuf := httpRespBuf[id := Accumulator(head, [])];
    }

    /** handleHTTPResponseBody */
    method HandleBody(id: uint32, chunk: seq<byte>)
      modifies this
      ensures At(id) == Next(old(At(id)), OnBody(chunk))
      ensures forall j: uint32 | j != id :: At(j) == old(At(j))
    {
      if id in httpRespBuf {
        var acc := httpRespBuf[id];
        httpRespBuf := httpRespBuf[id := acc.(body := acc.body + chunk)];
      }
    }

    /** handleHTTPResponseEnd and OnHTTPResponseComplete */
    method HandleEnd(id: uint32)
      requires Can(At(id), OnEnd)
      modifies this
      ensures At(id) == Next(old(At(id)), OnEnd)
      ensures forall j: uint32 | j != id :: At(j) == old(At(j))
    {
      if id !in httpRespBuf {
        return;
      }
      var acc := httpRespBuf[id];
      httpRespBuf := httpRespBuf - {id};
      if id in pending {
        pending := pending[id := pending[id] + [Complete(acc.head, acc.body)]];
      }
    }

    /** handleHTTPError and OnHTTPError */
    method HandleError(id: uint32, code: int, message: string)
      requires Can(At(id), OnError(code, message))
      modifies this
      ensures At(id) == Next(old(At(id)), OnError(code, message))
      ensures forall j: uint32 | j != id :: At(j) == old(At(j))
    {
      httpRespBuf := httpRespBuf - {id};
      if id in pending {
        pending := pending[id := pending[id] + [EdgeError(code, message)]];
      }
    }

    /** SendRequest's entry in the table ... */
    method Enter(id: uint32)
      requires Can(At(id), Register)
      modifies this
      ensures At(id) == Next(old(At(id)), Register)
      ensures forall j: uint32 | j != id :: At(j) == old(At(j))
    {
      pending := pending[id := []];
    }

    /** ... and its two ways out; `timeUp` is the choice of its select, which when
        a reply is there and the time is up as well may take either. */
    method Leave(id: uint32, timeUp: bool) returns (reply: Option<Reply>)
      requires id in pending
      modifies this
      ensures reply.Some? <==> old(pending[id]) != [] && !timeUp
      ensures var a := if reply.Some? then Receive else GiveUp;
              Can(old(At(id)), a) && At(id) == Next(old(At(id)), a)
      ensures reply.Some? ==> At(id).got == old(At(id)).got + [reply.value]
      ensures forall j: uint32 | j != id :: At(j) == old(At(j))
    {
      if pending[id] != [] && !timeUp {
        reply := Some(pending[id][0]);
        got := got[id := (if id in got then got[id] else []) + [pending[id][0]]];
      } else {
        reply := None;
      }
      pending := pending - {id};
    }
  }

  // ---- interleavings ----

  function Lookup(t: map<uint32, Slot>, id: uint32): Slot {
    if id in t then t[id] else EMPTY
  }

  /** The tables after a run of events of all ids mixed; None once a delivery has blocked, or for
      events that cannot happen. */
  function Exec(events: seq<Event>): Option<map<uint32, Slot>> {
    if events == [] then Some(map[])
    else
      var last := events[|events| - 1];
      match Exec(events[..|events| - 1])
      case None => None
      case Some(t) =>
        if Can(Lookup(t, last.id), last.action) then Some(t[last.id := Next(Lookup(t, last.id), last.action)])
        else None
  }

  function ActionsOf(events: seq<Event>, id: uint32): seq<Action> {
    if events == [] then []
    else
      var last := events[|events| - 1];
      ActionsOf(events[..|events| - 1], id) + if last.id == id then [last.action] else []
  }

  /** One id on its own. */
  function Fold(actions: seq<Action>): Option<Slot> {
    if actions == [] then Some(EMPTY)
    else
      match Fold(actions[..|actions| - 1])
      case None => None
      case Some(s) =>
        var a := actions[|actions| - 1];
        if Can(s, a) then Some(Next(s, a)) else None
  }

  lemma FoldMore(actions: seq<Action>, a: Action)
    ensures Fold(actions + [a]) ==
            match Fold(actions)
            case None => None
            case Some(s) => if Can(s, a) then Some(Next(s, a)) else None
  {
    hide Can, Next;
    assert (actions + [a])[..|actions|] == actions;
  }

  lemma ActionsOfLonger(events: seq<Event>, id: uint32)
    requires events != []
    ensures var last := events[|events| - 1];
            ActionsOf(events, id) ==
            if last.id == id then ActionsOf(events[..|events| - 1], id) + [last.action]
            else ActionsOf(events[..|events| - 1], id)
  {
    assert ActionsOf(events[..|events| - 1], id) + [] == ActionsOf(events[..|events| - 1], id);
  }

  /** However the frames of different requests interleave, each request sees only its own. */
  lemma {:induction false} Noninterference(events: seq<Event>, id: uint32)
    requires Exec(events).Some?
    ensures Fold(ActionsOf(events, id)) == Some(Lookup(Exec(events).value, id))
  {
    hide Can, Next, ActionsOf, Fold;
    if events == [] {
      NoActions(id);
    } else {
      var before, last := events[..|events| - 1], events[|events| - 1];
      Noninterference(before, id);
      ActionsOfLonger(events, id);
      FoldMore(ActionsOf(before, id), last.action);
    }
  }

  lemma NoActions(id: uint32)
    ensures Fold(ActionsOf([], id)) == Some(EMPTY)
  {
  }

  // ---- a well-behaved edge ----

  /** What a compliant edge sends for a request once it is registered: Head, Body*, End. */
  function Script(head: Head, bodies: seq<seq<byte>>): (script: seq<Action>)
    ensures |script| == |bodies| + 3
    ensures script[0] == Register && script[1] == OnHead(head) && script[|bodies| + 2] == OnEnd
    ensures forall i | 0 <= i < |bodies| :: script[i + 2] == OnBody(bodies[i])
  {
    [Register, OnHead(head)] + seq(|bodies|, i requires 0 <= i < |bodies| => OnBody(bodies[i])) + [OnEnd]
  }

  predicate ByRequester(a: Action) {
    a.Receive? || a.GiveUp?
  }

  /** The actions that are not the requester's own. */
  function EdgeSide(actions: seq<Action>): seq<Action> {
    if actions == [] then []
    else
      var a := actions[|actions| - 1];
      EdgeSide(actions[..|actions| - 1]) + if ByRequester(a) then [] else [a]
  }

  /** The slot after k actions of the script, whatever the requester did in between. */
  ghost predicate Follows(s: Slot, head: Head, bodies: seq<seq<byte>>, k: nat, gaveUp: bool)
    requires k <= |bodies| + 3
  {
    var own := Complete(head, Concat(bodies));
    var done := k == |bodies| + 3;
    && s.acc == (if 2 <= k < |bodies| + 3 then Some(Accumulator(head, Concat(bodies[..k - 2]))) else None)
    && (s.channel.Some? ==> s.got == [] && s.channel.value == if done then [own] else [])
    && (k == 0 ==> s.channel.None? && !gaveUp)
    && (s.got == [] || (done && s.got == [own] && s.channel.None?))
    && (k > 0 && s.channel.None? && s.got == [] ==> gaveUp)
  }

  lemma FollowsStep(s: Slot, head: Head, bodies: seq<seq<byte>>, k: nat, gaveUp: bool)
    requires k < |bodies| + 3 && Follows(s, head, bodies, k, gaveUp)
    ensures var a := Script(head, bodies)[k];
            Can(s, a) && Follows(Next(s, a), head, bodies, k + 1, gaveUp)
  {
    hide Concat, Script;
    if k == 1 {
      ConcatNone(bodies);
    } else if 2 <= k < |bodies| + 2 {
      ConcatStep(bodies, k - 2);
    } else if k == |bodies| + 2 {
      assert bodies[..k - 2] == bodies;
    }
  }

  lemma FollowsRequester(s: Slot, head: Head, bodies: seq<seq<byte>>, k: nat, gaveUp: bool, a: Action)
    requires k <= |bodies| + 3 && Follows(s, head, bodies, k, gaveUp) && ByRequester(a) && Can(s, a)
    ensures Follows(Next(s, a), head, bodies, k, gaveUp || a.GiveUp?)
  {
  }

  lemma {:induction false} SlotFollows(actions: seq<Action>, head: Head, bodies: seq<seq<byte>>, k: nat)
    requires Fold(actions).Some? && k <= |bodies| + 3
    requires EdgeSide(actions) == Script(head, bodies)[..k]
    ensures Follows(Fold(actions).value, head, bodies, k, GiveUp in actions)
    decreases |actions|
  {
    hide Can, Next, Follows, Script, Concat;
    if actions == [] {
      assert k == 0;
      FollowsStart(head, bodies);
    } else {
      var before, a := actions[..|actions| - 1], actions[|actions| - 1];
      assert actions == before + [a];
      var script := Script(head, bodies);
      if ByRequester(a) {
        assert EdgeSide(before) + [] == EdgeSide(before);
        SlotFollows(before, head, bodies, k);
        FollowsRequester(Fold(before).value, head, bodies, k, GiveUp in before, a);
      } else {
        assert k > 0 && script[..k] == script[..k - 1] + [script[k - 1]];
        assert EdgeSide(before) == script[..k - 1] && a == script[k - 1];
        SlotFollows(before, head, bodies, k - 1);
        FollowsStep(Fold(before).value, head, bodies, k - 1, GiveUp in before);
      }
    }
  }

  lemma FollowsStart(head: Head, bodies: seq<seq<byte>>)
    ensures Follows(EMPTY, head, bodies, 0, false)
  {
  }

  /** Reply reassembly: in any interleaving of requests, if an edge sends Head, Body*, End for a
      request, the requester gets at most one reply, and it is that head with that request's own
      body chunks in order.  If it does not give up, the reply is there once End has arrived. */
  lemma OwnReplyOnce(events: seq<Event>, id: uint32, head: Head, bodies: seq<seq<byte>>, k: nat)
    requires Exec(events).Some? && k <= |bodies| + 3
    requires EdgeSide(ActionsOf(events, id)) == Script(head, bodies)[..k]
    ensures var s := Lookup(Exec(events).value, id);
            var own := Complete(head, Concat(bodies));
            && s.got <= [own]
            && (k < |bodies| + 3 ==> s.got == [])
            && (k == |bodies| + 3 && GiveUp !in ActionsOf(events, id) ==> s.got == [own] || s.channel == Some([own]))
  {
    hide Exec, Fold, EdgeSide, ActionsOf, Script;
    Noninterference(events, id);
    SlotFollows(ActionsOf(events, id), head, bodies, k);
  }

  /** A compliant edge never blocks the read loop: the next frame it owes can always be handled,
      whatever the other requests of the session are doing. */
  lemma CompliantNeverBlocks(events: seq<Event>, id: uint32, head: Head, bodies: seq<seq<byte>>, k: nat)
    requires Exec(events).Some? && k < |bodies| + 3
    requires EdgeSide(ActionsOf(events, id)) == Script(head, bodies)[..k]
    ensures Exec(events + [Event(id, Script(head, bodies)[k])]).Some?
  {
    hide Fold, EdgeSide, ActionsOf, Script, Can, Next, Follows;
    Noninterference(events, id);
    SlotFollows(ActionsOf(events, id), head, bodies, k);
    FollowsStep(Lookup(Exec(events).value, id), head, bodies, k, GiveUp in ActionsOf(events, id));
    var e := Event(id, Script(head, bodies)[k]);
    assert (events + [e])[..|events|] == events;
  }

  // ---- an edge that fails ----

  /** The slot once the edge has reported an error, whatever the requester did and does. */
  ghost predicate Failed(s: Slot, error: Reply, gaveUp: bool) {
    && s.acc.None?
    && (s.channel.Some? ==> s.got == [] && s.channel.value == [error])
    && (s.got == [] || (s.got == [error] && s.channel.None?))
    && (s.channel.None? && s.got == [] ==> gaveUp)
  }

  lemma ErrorFails(s: Slot, head: Head, bodies: seq<seq<byte>>, k: nat, gaveUp: bool, code: int, message: string)
    requires 0 < k < |bodies| + 3 && Follows(s, head, bodies, k, gaveUp)
    ensures Can(s, OnError(code, message))
    ensures Failed(Next(s, OnError(code, message)), EdgeError(code, message), gaveUp)
  {
    hide Concat;
  }

  lemma FailedRequester(s: Slot, error: Reply, gaveUp: bool, a: Action)
    requires Failed(s, error, gaveUp) && ByRequester(a) && Can(s, a)
    ensures Failed(Next(s, a), error, gaveUp || a.GiveUp?)
  {
  }

  lemma {:induction false} SlotFails(actions: seq<Action>, head: Head, bodies: seq<seq<byte>>, k: nat,
                                     code: int, message: string)
    requires Fold(actions).Some? && 0 < k < |bodies| + 3
    requires EdgeSide(actions) == Script(head, bodies)[..k] + [OnError(code, message)]
    ensures Failed(Fold(actions).value, EdgeError(code, message), GiveUp in actions)
    decreases |actions|
  {
    hide Can, Next, Follows, Failed, Script;
    var before, a := actions[..|actions| - 1], actions[|actions| - 1];
    assert actions == before + [a];
    if ByRequester(a) {
      assert EdgeSide(before) + [] == EdgeSide(before);
      SlotFails(before, head, bodies, k, code, message);
      FailedRequester(Fold(before).value, EdgeError(code, message), GiveUp in before, a);
    } else {
      LastOf(EdgeSide(before), a, Script(head, bodies)[..k], OnError(code, message));
      SlotFollows(before, head, bodies, k);
      ErrorFails(Fold(before).value, head, bodies, k, GiveUp in before, code, message);
    }
  }

  lemma LastOf<T>(s: seq<T>, x: T, t: seq<T>, y: T)
    requires s + [x] == t + [y]
    ensures s == t && x == y
  {
    assert (s + [x])[..|s|] == s && (t + [y])[..|t|] == t && |s| == |t|;
    assert (s + [x])[|s|] == x && (t + [y])[|t|] == y;
  }

  /** In any interleaving of requests, if an edge reports an error for a request before its End,
      possibly behind a head and part of the body, the requester gets that error and nothing else: it
      is there at once unless the requester gives up, and nothing of the partial reply is kept. */
  lemma OwnErrorOnce(events: seq<Event>, id: uint32, head: Head, bodies: seq<seq<byte>>, k: nat,
                     code: int, message: string)
    requires Exec(events).Some? && 0 < k < |bodies| + 3
    requires EdgeSide(ActionsOf(events, id)) == Script(head, bodies)[..k] + [OnError(code, message)]
    ensures var s := Lookup(Exec(events).value, id);
            var own := EdgeError(code, message);
            && s.got <= [own] && s.acc == None
            && (GiveUp !in ActionsOf(events, id) ==> s.got == [own] || s.channel == Some([own]))
  {
    hide Exec, Fold, EdgeSide, ActionsOf, Script;
    Noninterference(events, id);
    SlotFails(ActionsOf(events, id), head, bodies, k, code, message);
  }

  /** And the error frame never blocks the read loop. */
  lemma ErrorNeverBlocks(events: seq<Event>, id: uint32, head: Head, bodies: seq<seq<byte>>, k: nat,
                         code: int, message: string)
    requires Exec(events).Some? && 0 < k < |bodies| + 3
    requires EdgeSide(ActionsOf(events, id)) == Script(head, bodies)[..k]
    ensures Exec(events + [Event(id, OnError(code, message))]).Some?
  {
    hide Fold, EdgeSide, ActionsOf, Script, Can, Next, Follows;
    Noninterference(events, id);
    SlotFollows(ActionsOf(events, id), head, bodies, k);
    ErrorFails(Lookup(Exec(events).value, id), head, bodies, k, GiveUp in ActionsOf(events, id), code, message);
    var e := Event(id, OnError(code, message));
    assert (events + [e])[..|events|] == events;
  }

  /** Without a head there is no reply: body and end frames of such a request are ignored. */
  lemma {:induction false} NoHeadNoReply(actions: seq<Action>)
    requires Fold(actions).Some?
    requires forall a <- actions :: !a.OnHead? && !a.OnError?
    ensures var s := Fold(actions).value; s.acc == None && s.got == [] && (s.channel.Some? ==> s.channel.value == [])
    decreases |actions|
  {
    if actions != [] {
      NoHeadNoReply(actions[..|actions| - 1]);
    }
  }

  /** A second head starts the reply anew: nothing gathered under an earlier one gets into it. */
  lemma HeadStartsAnew(s: Slot, head: Head, chunk: seq<byte>)
    requires s.channel == Some([])
    ensures Can(Next(Next(s, OnHead(head)), OnBody(chunk)), OnEnd)
    ensures Next(Next(Next(s, OnHead(head)), OnBody(chunk)), OnEnd)
         == s.(acc := None, channel := Some([Complete(head, chunk)]))
  {
    assert [] + chunk == chunk && [] + [Complete(head, chunk)] == [Complete(head, chunk)];
  }
}
