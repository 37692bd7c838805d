/**
 The path of one tunnel through access, relay and egress nodes: the handshake guards, the relay's
 hop count and the egress check.  A network is any assignment of nodes to addresses, cycles
 included; which of a relay's next hops answers is left open, as fallback dialing decides it.
 */
module RelayChain {

  const VERSION := 1
  const MAX_HOP_COUNT := 16

  type Addr = string

  datatype Request = Request(version: int, serviceId: string, targetIdc: string, protocol: string,
                             clientIp: string, hopCount: int)

  datatype Route = Route(idc: string, hops: seq<Addr>)

  datatype Origin = Origin(host: string, port: int, tls: bool)

  datatype Node =
    | Relay(routes: map<string, seq<Route>>)
    | Egress(idc: string, origins: map<string, Origin>)

  datatype Outcome =
    | Forward(req: Request, hops: seq<Addr>)
    | DialOrigin(origin: Origin, tls: bool)
    | Rejected   // by ReceiveHandshake
    | Dropped    // by handleTunnel

  /** ReceiveHandshake's guards. */
  predicate Accepted(req: Request) {
    req.version == VERSION && req.hopCount <= MAX_HOP_COUNT && req.targetIdc != ""
  }

  /** HopsForIDC: the first route for the IDC. */
  function HopsFor(routes: seq<Route>, idc: string): seq<Addr> {
    if routes == [] then []
    else if routes[0].idc == idc then routes[0].hops
    else HopsFor(routes[1..], idc)
  }

  /** What a node does with an inbound tunnel. */
  function Handle(node: Node, req: Request): Outcome {
    if !Accepted(req) then Rejected
    else
      match node
      case Relay(routes) =>
        if req.serviceId !in routes then Dropped
        else
          var hops := HopsFor(routes[req.serviceId], req.targetIdc);
          var forward := req.(hopCount := req.hopCount + 1);
          if hops == [] || forward.hopCount > MAX_HOP_COUNT then Dropped
          else Forward(forward, hops)
      case Egress(idc, origins) =>
        if req.targetIdc != idc || req.serviceId !in origins then Dropped
        else
          var o := origins[req.serviceId];
          DialOrigin(o, o.tls || req.protocol == "https")
  }

  /** The request an access node sends for a connection of a service. */
  function AccessRequest(serviceId: string, targetIdc: string, protocol: string, clientIp: string): Request {
    Request(VERSION, serviceId, targetIdc, protocol, clientIp, 0)
  }

  // ---- what the guards and the route lookup mean ----

  /** Routes[k] is the first of the list for the IDC. */
  ghost predicate IsFirstFor(routes: seq<Route>, idc: string, k: int) {
    0 <= k < |routes| && routes[k].idc == idc && forall j | 0 <= j < k :: routes[j].idc != idc
  }

  lemma {:induction false} FirstRouteDecides(routes: seq<Route>, idc: string)
    ensures forall k :: IsFirstFor(routes, idc, k) ==> HopsFor(routes, idc) == routes[k].hops
    ensures (forall r <- routes :: r.idc != idc) ==> HopsFor(routes, idc) == []
    ensures HopsFor(routes, idc) != [] ==> exists k :: IsFirstFor(routes, idc, k)
  {
    if routes != [] && routes[0].idc != idc {
      FirstRouteDecides(routes[1..], idc);
      forall k | IsFirstFor(routes, idc, k) ensures HopsFor(routes, idc) == routes[k].hops {
        assert forall j | 0 <= j < k - 1 :: routes[1..][j] == routes[j + 1];
        assert IsFirstFor(routes[1..], idc, k - 1);
      }
      if HopsFor(routes, idc) != [] {
        var k :| IsFirstFor(routes[1..], idc, k);
        assert forall j | 0 < j < k + 1 :: routes[j] == routes[1..][j - 1];
        assert IsFirstFor(routes, idc, k + 1);
      }
    } else if routes != [] {
      assert IsFirstFor(routes, idc, 0);
    }
  }

  /** A handshake is refused for a foreign version, an empty IDC or too many hops, and only then; so
      an access node's own request is accepted wherever it arrives first. */
  lemma RefusedExactly(node: Node, req: Request)
    ensures Handle(node, req) == Rejected <==> req.version != 1 || req.targetIdc == "" || req.hopCount > 16
    ensures forall serviceId, targetIdc, protocol, clientIp | targetIdc != "" ::
              Handle(node, AccessRequest(serviceId, targetIdc, protocol, clientIp)) != Rejected
  {
  }

  /** A relay forwards an accepted request exactly when its service has a route for the requested IDC
      whose first such entry lists a hop, and a hop is still allowed; it forwards to those hops. */
  lemma RelayForwardsExactly(routes: map<string, seq<Route>>, req: Request)
    requires Accepted(req)
    ensures var o := Handle(Relay(routes), req);
            && (o.Forward? <==> req.hopCount < 16 && req.serviceId in routes
                                && exists k :: IsFirstFor(routes[req.serviceId], req.targetIdc, k)
                                               && routes[req.serviceId][k].hops != [])
            && (o.Forward? || o.Dropped?)
            && (o.Forward? ==> o.req == req.(hopCount := req.hopCount + 1)
                               && forall k :: IsFirstFor(routes[req.serviceId], req.targetIdc, k)
                                              ==> o.hops == routes[req.serviceId][k].hops)
  {
    if req.serviceId in routes {
      FirstRouteDecides(routes[req.serviceId], req.targetIdc);
    }
  }

  /** An egress dials for an accepted request exactly when it is for its own IDC and one of its
      services, and drops it otherwise. */
  lemma EgressDialsExactly(idc: string, origins: map<string, Origin>, req: Request)
    requires Accepted(req)
    ensures var o := Handle(Egress(idc, origins), req);
            && (o.DialOrigin? <==> req.targetIdc == idc && req.serviceId in origins)
            && (o.DialOrigin? || o.Dropped?)
            && (o.DialOrigin? ==> o.origin == origins[req.serviceId]
                                  && (o.tls <==> o.origin.tls || req.protocol == "https"))
  {
  }

  datatype Visit = Visit(at: Addr, req: Request)

  /** A chain of tunnels: each node forwards to one of its next hops, which exists in the network. */
  ghost predicate Chain(net: map<Addr, Node>, visits: seq<Visit>) {
    && (forall i | 0 <= i < |visits| :: visits[i].at in net)
    && forall i | 0 <= i < |visits| - 1 :: Hop(net[visits[i].at], visits[i], visits[i + 1])
  }

  ghost predicate Hop(node: Node, from: Visit, to: Visit) {
    var o := Handle(node, from.req);
    o.Forward? && o.req == to.req && to.at in o.hops
  }

  /** Along a chain only the hop count changes, by one a hop. */
  lemma {:induction false} RequestAlongChain(net: map<Addr, Node>, visits: seq<Visit>, i: nat)
    requires Chain(net, visits) && i < |visits|
    ensures visits[i].req == visits[0].req.(hopCount := visits[0].req.hopCount + i)
    ensures i > 0 ==> visits[i].req.hopCount <= MAX_HOP_COUNT
    decreases i
  {
    if i > 0 {
      RequestAlongChain(net, visits, i - 1);
      assert Hop(net[visits[i - 1].at], visits[i - 1], visits[i]);
    }
  }

  /** Every hop of a chain is taken at a relay and is listed in that relay's first route of the access
      node's service for the IDC the access node asked for. */
  lemma HopsServeTheIdc(net: map<Addr, Node>, visits: seq<Visit>, i: nat, serviceId: string, targetIdc: string,
                        protocol: string, clientIp: string) returns (k: nat)
    requires Chain(net, visits) && i < |visits| - 1
    requires visits[0].req == AccessRequest(serviceId, targetIdc, protocol, clientIp)
    ensures var relay := net[visits[i].at];
            && relay.Relay? && serviceId in relay.routes
            && IsFirstFor(relay.routes[serviceId], targetIdc, k)
            && visits[i + 1].at in relay.routes[serviceId][k].hops
  {
    RequestAlongChain(net, visits, i);
    var relay := net[visits[i].at];
    assert Hop(relay, visits[i], visits[i + 1]);
    FirstRouteDecides(relay.routes[serviceId], targetIdc);
    k :| IsFirstFor(relay.routes[serviceId], targetIdc, k);
  }

  /** Relay chains terminate: over any network, cycles included, a tunnel opened by an access node
      is forwarded at most MAX_HOP_COUNT times. */
  lemma ChainIsBounded(net: map<Addr, Node>, visits: seq<Visit>, serviceId: string, targetIdc: string,
                       protocol: string, clientIp: string)
    requires Chain(net, visits) && visits != []
    requires visits[0].req == AccessRequest(serviceId, targetIdc, protocol, clientIp)
    ensures |visits| - 1 <= MAX_HOP_COUNT
  {
    RequestAlongChain(net, visits, |visits| - 1);
  }

  /** The end-to-end routing guarantee: an origin is dialed only at an egress of the IDC the access
      node asked for, it is that egress's origin for the access node's service, and TLS is used
      whenever the origin or the client's protocol asks for it. */
  lemma OriginIsTheOneAskedFor(net: map<Addr, Node>, visits: seq<Visit>, serviceId: string, targetIdc: string,
                               protocol: string, clientIp: string)
    requires Chain(net, visits) && visits != []
    requires visits[0].req == AccessRequest(serviceId, targetIdc, protocol, clientIp)
    requires Handle(net[visits[|visits| - 1].at], visits[|visits| - 1].req).DialOrigin?
    ensures var egress := net[visits[|visits| - 1].at];
            var dial := Handle(egress, visits[|visits| - 1].req);
            && egress.Egress? && egress.idc == targetIdc && serviceId in egress.origins
            && dial.origin == egress.origins[serviceId]
            && (dial.tls <==> egress.origins[serviceId].tls || protocol == "https")
    ensures forall i | 0 <= i < |visits| - 1 :: net[visits[i].at].Relay?
  {
    RequestAlongChain(net, visits, |visits| - 1);
    forall i | 0 <= i < |visits| - 1 ensures net[visits[i].at].Relay? {
      assert Hop(net[visits[i].at], visits[i], visits[i + 1]);
    }
  }

  /** The bound is tight: a relay that routes to itself forwards exactly MAX_HOP_COUNT times, and
      the last handshake is accepted but its tunnel dropped. */
  lemma SelfLoopReachesBound(net: map<Addr, Node>, at: Addr, req: Request) returns (visits: seq<Visit>)
    requires at in net && net[at].Relay? && req.serviceId in net[at].routes
    requires at in HopsFor(net[at].routes[req.serviceId], req.targetIdc)
    requires Accepted(req) && req.hopCount == 0
    ensures |visits| - 1 == MAX_HOP_COUNT && visits[0] == Visit(at, req) && Chain(net, visits)
    ensures Accepted(visits[MAX_HOP_COUNT].req) && Handle(net[at], visits[MAX_HOP_COUNT].req) == Dropped
  {
    visits := seq(MAX_HOP_COUNT + 1, i requires 0 <= i <= MAX_HOP_COUNT => Visit(at, req.(hopCount := i)));
    forall i | 0 <= i < |visits| - 1 ensures Hop(net[visits[i].at], visits[i], visits[i + 1]) {
      assert visits[i].req.(hopCount := i + 1) == visits[i + 1].req;
    }
  }
}
