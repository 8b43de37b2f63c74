/** internal/ingress/controller/endpoints.go: the upstream servers of a service port. */
module Endpoints {
  import opened Go
  import opened Types
  import opened Sorting
  import Sets

  datatype EndpointPort = EndpointPort(name: string, port: int, protocol: string)
  datatype EndpointAddress = EndpointAddress(ip: string, targetRef: Ptr<ObjectRef>)
  datatype EndpointSubset = EndpointSubset(addresses: seq<EndpointAddress>, ports: seq<EndpointPort>)

  /** A cached Endpoints object; the revision stands for the fields routing ignores. */
  datatype EndpointsObject = EndpointsObject(revision: string, subsets: seq<EndpointSubset>)

  /** The protocol and port-name filter; an unnamed service port takes any port. */
  predicate Admitted(p: EndpointPort, portName: string, proto: string) {
    p.protocol == proto && (portName == "" || portName == p.name) && p.port > 0
  }

  function Server(a: EndpointAddress, port: int): Endpoint {
    Endpoint(a.ip, Itoa(port), a.targetRef)
  }

  // ---- Every admitted server, in loop order and with repetitions -------------

  function AddressServers(addresses: seq<EndpointAddress>, port: int): (r: seq<Endpoint>)
    ensures |r| == |addresses| && forall i :: 0 <= i < |r| ==> r[i] == Server(addresses[i], port)
  {
    seq(|addresses|, i requires 0 <= i < |addresses| => Server(addresses[i], port))
  }

  /** The candidates `c`, followed by those of the first `n` ports of a subset. */
  function PortServers(c: seq<Endpoint>, ss: EndpointSubset, n: nat, portName: string, proto: string): seq<Endpoint>
    requires n <= |ss.ports|
  {
    if n == 0 then c
    else
      var before := PortServers(c, ss, n - 1, portName, proto);
      var p := ss.ports[n - 1];
      if Admitted(p, portName, proto) then before + AddressServers(ss.addresses, p.port) else before
  }

  function Servers(subsets: seq<EndpointSubset>, portName: string, proto: string): seq<Endpoint> {
    if subsets == [] then []
    else var last := subsets[|subsets| - 1];
         PortServers(Servers(subsets[..|subsets| - 1], portName, proto), last, |last.ports|, portName, proto)
  }

  // ---- Keeping the first server at each socket -------------------------------

  predicate FirstAtSocket(c: seq<Endpoint>, i: nat)
    requires i < |c|
  {
    forall j :: 0 <= j < i ==> Socket(c[j]) != Socket(c[i])
  }

  function FirstOccurrences(c: seq<Endpoint>): seq<Endpoint> {
    if c == [] then []
    else FirstOccurrences(c[..|c| - 1]) + if FirstAtSocket(c, |c| - 1) then [c[|c| - 1]] else []
  }

  /** Where each kept server came from: the positions increase, and each is the
      first candidate with its socket. */
  ghost predicate Selects(c: seq<Endpoint>, d: seq<Endpoint>, origin: seq<nat>) {
    && |origin| == |d|
    && (forall i :: 0 <= i < |d| ==> origin[i] < |c| && d[i] == c[origin[i]] && FirstAtSocket(c, origin[i]))
    && (forall i, j :: 0 <= i < j < |d| ==> origin[i] < origin[j])
  }

  /** Every kept server is the first candidate at its socket, in candidate order. */
  lemma {:induction false} KeepsFirstInOrder(c: seq<Endpoint>) returns (origin: seq<nat>)
    ensures Selects(c, FirstOccurrences(c), origin)
  {
    if c == [] {
      origin := [];
    } else {
      var n := |c| - 1;
      var init := c[..n];
      origin := KeepsFirstInOrder(init);
      SelectsFromLonger(c, FirstOccurrences(init), origin);
      if FirstAtSocket(c, n) {
        SelectsLast(c, FirstOccurrences(init), origin);
        origin := origin + [n];
      }
    }
  }

  /** A selection from all but the last candidate is a selection. */
  lemma SelectsFromLonger(c: seq<Endpoint>, d: seq<Endpoint>, origin: seq<nat>)
    requires c != [] && Selects(c[..|c| - 1], d, origin)
    ensures Selects(c, d, origin) && forall i :: 0 <= i < |d| ==> origin[i] < |c| - 1
  {
    var init := c[..|c| - 1];
    forall i | 0 <= i < |d| ensures d[i] == c[origin[i]] && FirstAtSocket(c, origin[i]) {
      assert FirstAtSocket(init, origin[i]);
      assert forall j :: 0 <= j <= origin[i] ==> init[j] == c[j];
    }
  }

  /** It may be followed by the last candidate, if that is new. */
  lemma SelectsLast(c: seq<Endpoint>, d: seq<Endpoint>, origin: seq<nat>)
    requires c != [] && Selects(c, d, origin) && FirstAtSocket(c, |c| - 1)
    requires forall i :: 0 <= i < |d| ==> origin[i] < |c| - 1
    ensures Selects(c, d + [c[|c| - 1]], origin + [|c| - 1])
  {
  }

  /** No socket is kept twice. */
  lemma KeepsNoSocketTwice(c: seq<Endpoint>)
    ensures var d := FirstOccurrences(c); forall i, j :: 0 <= i < j < |d| ==> Socket(d[i]) != Socket(d[j])
  {
    var origin := KeepsFirstInOrder(c);
  }

  /** Every candidate socket is kept. */
  lemma {:induction false} KeepsEverySocket(c: seq<Endpoint>, k: nat) returns (i: nat)
    requires k < |c|
    ensures i < |FirstOccurrences(c)| && Socket(FirstOccurrences(c)[i]) == Socket(c[k])
    decreases |c|, k
  {
    var n := |c| - 1;
    if k < n {
      i := KeepsEverySocket(c[..n], k);
    } else if FirstAtSocket(c, n) {
      i := |FirstOccurrences(c)| - 1;
    } else {
      var j :| 0 <= j < n && Socket(c[j]) == Socket(c[n]);
      i := KeepsEverySocket(c, j);
    }
  }

  // ---- The triple loop with the dedup map ------------------------------------

  /** The dedup map's key for a server. */
  function Key(e: Endpoint): string { JoinHostPort(e.address, e.port) }

  function Keys(c: seq<Endpoint>): set<string> {
    if c == [] then {} else Keys(c[..|c| - 1]) + {Key(c[|c| - 1])}
  }

  ghost predicate NumericPorts(c: seq<Endpoint>) {
    forall e :: e in c ==> ':' !in e.port
  }

  /** The key is in the map exactly when the socket was seen. */
  lemma {:induction false} KeyIffSeen(c: seq<Endpoint>, e: Endpoint)
    requires NumericPorts(c) && ':' !in e.port
    ensures Key(e) in Keys(c) <==> exists k :: 0 <= k < |c| && Socket(c[k]) == Socket(e)
  {
    if c != [] {
      var n := |c| - 1;
      KeyIffSeen(c[..n], e);
      JoinHostPortInjective(c[n].address, c[n].port, e.address, e.port);
      if Key(e) in Keys(c[..n]) {
        var k :| 0 <= k < n && Socket(c[..n][k]) == Socket(e);
        assert c[k] == c[..n][k];
      }
    }
  }

  lemma PortHasNoColon(port: int)
    requires port > 0
    ensures ':' !in Itoa(port)
  {
    ItoaDigits(port);
  }

  /** The dedup state after the candidates `c`. */
  ghost predicate Deduped(servers: seq<Endpoint>, processed: set<string>, c: seq<Endpoint>) {
    servers == FirstOccurrences(c) && processed == Keys(c) && NumericPorts(c)
  }

  lemma OneMore(c: seq<Endpoint>, e: Endpoint)
    requires NumericPorts(c) && ':' !in e.port
    ensures NumericPorts(c + [e]) && Keys(c + [e]) == Keys(c) + {Key(e)}
    ensures FirstOccurrences(c + [e]) == FirstOccurrences(c) + if Key(e) in Keys(c) then [] else [e]
  {
    var d := c + [e];
    assert d[..|c|] == c && d[|c|] == e;
    KeyIffNotFirst(c, e);
  }

  /** The next candidate is first at its socket exactly when its key is not in the map. */
  lemma KeyIffNotFirst(c: seq<Endpoint>, e: Endpoint)
    requires NumericPorts(c) && ':' !in e.port
    ensures FirstAtSocket(c + [e], |c|) <==> Key(e) !in Keys(c)
  {
    KeyIffSeen(c, e);
    var d := c + [e];
    assert d[|c|] == e && forall j :: 0 <= j < |c| ==> d[j] == c[j];
  }

  /** The body of the innermost loop. */
  method AddServer(address: EndpointAddress, port: int, ghost c: seq<Endpoint>, servers: seq<Endpoint>,
                   processed: set<string>)
    returns (servers': seq<Endpoint>, processed': set<string>)
    requires port > 0 && Deduped(servers, processed, c)
    ensures Deduped(servers', processed', c + [Server(address, port)])
  {
    servers', processed' := servers, processed;
    var ep := JoinHostPort(address.ip, Itoa(port));
    PortHasNoColon(port);
    OneMore(c, Server(address, port));
    if ep in processed {
      assert processed + {ep} == processed;
      return;
    }
    servers' := servers + [Endpoint(address.ip, Itoa(port), address.targetRef)];
    processed' := processed + {ep};
  }

  /** The loop over addresses. */
  method AddServers(addresses: seq<EndpointAddress>, port: int, ghost c: seq<Endpoint>,
                    servers: seq<Endpoint>, processed: set<string>)
    returns (servers': seq<Endpoint>, processed': set<string>)
    requires port > 0 && Deduped(servers, processed, c)
    ensures Deduped(servers', processed', c + AddressServers(addresses, port))
  {
    servers', processed' := servers, processed;
    ghost var so := c;
    for i := 0 to |addresses|
      invariant so == c + AddressServers(addresses, port)[..i] && Deduped(servers', processed', so)
    {
      servers', processed' := AddServer(addresses[i], port, so, servers', processed');
      NextServer(c, addresses, port, i);
      so := so + [Server(addresses[i], port)];
    }
    assert AddressServers(addresses, port)[..|addresses|] == AddressServers(addresses, port);
  }

  lemma NextServer(c: seq<Endpoint>, addresses: seq<EndpointAddress>, port: int, i: nat)
    requires i < |addresses|
    ensures var all := AddressServers(addresses, port);
            c + all[..i] + [Server(addresses[i], port)] == c + all[..i + 1]
  {
    var all := AddressServers(addresses, port);
    assert all[..i + 1] == all[..i] + [all[i]];
  }

  /** The loop over the ports of one subset. */
  method AddPorts(ss: EndpointSubset, portName: string, proto: string, ghost c: seq<Endpoint>,
                  servers: seq<Endpoint>, processed: set<string>)
    returns (servers': seq<Endpoint>, processed': set<string>)
    requires Deduped(servers, processed, c)
    ensures Deduped(servers', processed', PortServers(c, ss, |ss.ports|, portName, proto))
  {
    servers', processed' := servers, processed;
    for j := 0 to |ss.ports|
      invariant Deduped(servers', processed', PortServers(c, ss, j, portName, proto))
    {
      var targetPort := TargetPort(ss.ports[j], portName, proto);
      if targetPort > 0 {
        servers', processed' := AddServers(ss.addresses, targetPort, PortServers(c, ss, j, portName, proto),
                                                                                 servers', processed');
      }
    }
  }

  /** The port to use, or zero when the filter rejects it. */
  method TargetPort(epPort: EndpointPort, portName: string, proto: string) returns (targetPort: int)
    ensures targetPort > 0 <==>
              epPort.protocol == proto && (portName == "" || epPort.name == portName) && epPort.port > 0
    ensures targetPort > 0 ==> targetPort == epPort.port
  {
    targetPort := 0;
    if epPort.protocol != proto {
      return;
    }
    if portName == "" {
      targetPort := epPort.port;
    } else if portName == epPort.name {
      targetPort := epPort.port;
    }
  }

  /** getEndpoints for a service that is not ExternalName. */
  method GetEndpoints(subsets: seq<EndpointSubset>, portName: string, proto: string) returns (servers: seq<Endpoint>)
    ensures servers == FirstOccurrences(Servers(subsets, portName, proto))
    ensures Exactly(servers, subsets, portName, proto)
  {
    EndpointsExact(subsets, portName, proto);
    servers := [];
    var processed: set<string> := {};
    for i := 0 to |subsets|
      invariant Deduped(servers, processed, Servers(subsets[..i], portName, proto))
    {
      assert subsets[..i + 1][..i] == subsets[..i];
      servers, processed := AddPorts(subsets[i], portName, proto, Servers(subsets[..i], portName, proto), servers,
                                                                          processed);
    }
    assert subsets[..|subsets|] == subsets;
  }

  // ---- What is offered, and in which order -----------------------------------

  /** A place in the three loops: a subset, one of its ports and one of its addresses. */
  datatype Position = Position(subset: nat, port: nat, address: nat) {
    predicate Before(q: Position) {
      subset < q.subset || (subset == q.subset && (port < q.port || (port == q.port && address < q.address)))
    }
  }

  /** The endpoint object offers `e` to this service port at this place: the port is positive, of
      the protocol, and of the name unless the service port has none. */
  ghost predicate OfferedAt(subsets: seq<EndpointSubset>, p: Position, portName: string, proto: string, e: Endpoint) {
    && p.subset < |subsets| && p.port < |subsets[p.subset].ports| && p.address < |subsets[p.subset].addresses|
    && var port, address := subsets[p.subset].ports[p.port], subsets[p.subset].addresses[p.address];
       && port.protocol == proto && (portName == "" || port.name == portName) && port.port > 0
       && e.address == address.ip && e.port == Itoa(port.port) && e.target == address.targetRef
  }

  ghost predicate Offers(subsets: seq<EndpointSubset>, portName: string, proto: string, e: Endpoint) {
    exists p :: OfferedAt(subsets, p, portName, proto, e)
  }

  /** `e` is offered, and no place before offers its socket. */
  ghost predicate OffersFirst(subsets: seq<EndpointSubset>, portName: string, proto: string, e: Endpoint) {
    exists p :: OfferedAt(subsets, p, portName, proto, e) && FirstPlace(subsets, p, portName, proto, e)
  }

  ghost predicate FirstPlace(subsets: seq<EndpointSubset>, p: Position, portName: string, proto: string, e: Endpoint) {
    forall q, f :: OfferedAt(subsets, q, portName, proto, f) && Socket(f) == Socket(e) ==> !q.Before(p)
  }

  /** The candidates lie at increasing places, each offered there. */
  ghost predicate Placed(subsets: seq<EndpointSubset>, portName: string, proto: string, c: seq<Endpoint>,
                         places: seq<Position>) {
    && |places| == |c|
    && (forall i :: 0 <= i < |c| ==> OfferedAt(subsets, places[i], portName, proto, c[i]))
    && (forall i, j :: 0 <= i < j < |c| ==> places[i].Before(places[j]))
  }

  /** They are all that is offered before a place. */
  ghost predicate AllBefore(subsets: seq<EndpointSubset>, portName: string, proto: string, places: seq<Position>,
                            end: Position) {
    forall p, e :: OfferedAt(subsets, p, portName, proto, e) ==> (p in places <==> p.Before(end))
  }

  lemma {:induction false} PortServersPlaced(subsets: seq<EndpointSubset>, c: seq<Endpoint>, places: seq<Position>,
                                             s: nat, n: nat, portName: string, proto: string)
    returns (more: seq<Position>)
    requires s < |subsets| && n <= |subsets[s].ports|
    requires Placed(subsets, portName, proto, c, places)
    requires AllBefore(subsets, portName, proto, places, Position(s, 0, 0))
    ensures Placed(subsets, portName, proto, PortServers(c, subsets[s], n, portName, proto), more)
    ensures AllBefore(subsets, portName, proto, more, Position(s, n, 0))
  {
    if n == 0 {
      more := places;
    } else {
      more := PortServersPlaced(subsets, c, places, s, n - 1, portName, proto);
      if Admitted(subsets[s].ports[n - 1], portName, proto) {
        var before := PortServers(c, subsets[s], n - 1, portName, proto);
        more := PortPlaced(subsets, before, more, s, n - 1, portName, proto);
      }
    }
  }

  /** The addresses at one admitted port. */
  lemma PortPlaced(subsets: seq<EndpointSubset>, c: seq<Endpoint>, places: seq<Position>, s: nat, n: nat,
                   portName: string, proto: string)
    returns (more: seq<Position>)
    requires s < |subsets| && n < |subsets[s].ports| && Admitted(subsets[s].ports[n], portName, proto)
    requires Placed(subsets, portName, proto, c, places)
    requires AllBefore(subsets, portName, proto, places, Position(s, n, 0))
    ensures Placed(subsets, portName, proto, c + AddressServers(subsets[s].addresses, subsets[s].ports[n].port), more)
    ensures AllBefore(subsets, portName, proto, more, Position(s, n + 1, 0))
  {
    var addresses := subsets[s].addresses;
    var block := seq(|addresses|, k requires 0 <= k < |addresses| => Position(s, n, k));
    more := places + block;
    BlockPlaced(subsets, c, places, block, s, n, portName, proto);
    forall p, e | OfferedAt(subsets, p, portName, proto, e) ensures p in more <==> p.Before(Position(s, n + 1, 0)) {
      BlockHolds(block, s, n, p);
    }
  }

  lemma BlockPlaced(subsets: seq<EndpointSubset>, c: seq<Endpoint>, places: seq<Position>, block: seq<Position>, s: nat,
                    n: nat, portName: string, proto: string)
    requires s < |subsets| && n < |subsets[s].ports| && Admitted(subsets[s].ports[n], portName, proto)
    requires Placed(subsets, portName, proto, c, places)
    requires AllBefore(subsets, portName, proto, places, Position(s, n, 0))
    requires |block| == |subsets[s].addresses| && forall k :: 0 <= k < |block| ==> block[k] == Position(s, n, k)
    ensures Placed(subsets, portName, proto, c + AddressServers(subsets[s].addresses, subsets[s].ports[n].port),
                   places + block)
  {
    forall i | 0 <= i < |c| ensures places[i].Before(Position(s, n, 0)) {
      assert places[i] in places;
    }
  }

  lemma BlockHolds(block: seq<Position>, s: nat, n: nat, p: Position)
    requires forall k :: 0 <= k < |block| ==> block[k] == Position(s, n, k)
    ensures p in block <==> p.subset == s && p.port == n && p.address < |block|
  {
    if p.subset == s && p.port == n && p.address < |block| {
      assert block[p.address] == p;
    }
  }

  lemma {:induction false} ServersPlaced(subsets: seq<EndpointSubset>, n: nat, portName: string, proto: string)
    returns (places: seq<Position>)
    requires n <= |subsets|
    ensures Placed(subsets, portName, proto, Servers(subsets[..n], portName, proto), places)
    ensures AllBefore(subsets, portName, proto, places, Position(n, 0, 0))
  {
    if n == 0 {
      places := [];
    } else {
      var m := n - 1;
      places := ServersPlaced(subsets, m, portName, proto);
      assert subsets[..n][..m] == subsets[..m];
      places := PortServersPlaced(subsets, Servers(subsets[..m], portName, proto), places, m, |subsets[m].ports|,
                                  portName, proto);
    }
  }

  ghost predicate Kept(d: seq<Endpoint>, e: Endpoint) {
    exists i :: 0 <= i < |d| && Socket(d[i]) == Socket(e)
  }

  /** Exactly the offered sockets, each once, with the target of the first place that offers it. */
  ghost predicate Exactly(d: seq<Endpoint>, subsets: seq<EndpointSubset>, portName: string, proto: string) {
    && (forall e :: e in d ==> OffersFirst(subsets, portName, proto, e))
    && (forall e :: Offers(subsets, portName, proto, e) ==> Kept(d, e))
    && (forall i, j :: 0 <= i < j < |d| ==> Socket(d[i]) != Socket(d[j]))
  }

  /** The servers of a port: exactly the offered sockets, each once, with the target of the first
      place that offers it. */
  lemma EndpointsExact(subsets: seq<EndpointSubset>, portName: string, proto: string)
    ensures Exactly(FirstOccurrences(Servers(subsets, portName, proto)), subsets, portName, proto)
  {
    var c := Servers(subsets, portName, proto);
    var d := FirstOccurrences(c);
    var places := ServersPlaced(subsets, |subsets|, portName, proto);
    assert subsets[..|subsets|] == subsets;
    KeepsNoSocketTwice(c);
    var origin := KeepsFirstInOrder(c);
    forall e | e in d ensures OffersFirst(subsets, portName, proto, e) {
      var i :| 0 <= i < |d| && d[i] == e;
      FirstIsPlacedFirst(subsets, portName, proto, c, places, origin[i]);
    }
    forall e | Offers(subsets, portName, proto, e) ensures Kept(d, e) {
      var k := PlaceOf(subsets, portName, proto, c, places, e);
      var i := KeepsEverySocket(c, k);
    }
  }

  /** What is offered is a candidate. */
  lemma PlaceOf(subsets: seq<EndpointSubset>, portName: string, proto: string, c: seq<Endpoint>, places: seq<Position>,
                e: Endpoint)
    returns (k: nat)
    requires Placed(subsets, portName, proto, c, places)
    requires AllBefore(subsets, portName, proto, places, Position(|subsets|, 0, 0))
    requires Offers(subsets, portName, proto, e)
    ensures k < |c| && c[k] == e
  {
    var p :| OfferedAt(subsets, p, portName, proto, e);
    assert p in places;
    k :| k < |places| && places[k] == p;
    assert OfferedAt(subsets, places[k], portName, proto, c[k]);
  }

  /** The first candidate at a socket lies at the first place that offers it. */
  lemma FirstIsPlacedFirst(subsets: seq<EndpointSubset>, portName: string, proto: string, c: seq<Endpoint>,
                           places: seq<Position>, k: nat)
    requires Placed(subsets, portName, proto, c, places) && k < |c| && FirstAtSocket(c, k)
    requires AllBefore(subsets, portName, proto, places, Position(|subsets|, 0, 0))
    ensures OffersFirst(subsets, portName, proto, c[k])
  {
    forall q, f | OfferedAt(subsets, q, portName, proto, f) && Socket(f) == Socket(c[k]) ensures !q.Before(places[k]) {
      assert q in places;
      var j :| 0 <= j < |places| && places[j] == q;
      assert OfferedAt(subsets, places[j], portName, proto, c[j]);
    }
    assert FirstPlace(subsets, places[k], portName, proto, c[k]);
  }

  // ---- Sockets ---------------------------------------------------------------

  /** Some place offers this address and port. */
  ghost predicate OffersSocket(subsets: seq<EndpointSubset>, portName: string, proto: string, address: string,
                               port: string) {
    exists p, target :: OfferedAt(subsets, p, portName, proto, Endpoint(address, port, target))
  }

  /** How often a list of servers without repeated sockets has a socket. */
  lemma {:induction false} SocketCount(d: seq<Endpoint>, address: string, port: string)
    requires forall i, j :: 0 <= i < j < |d| ==> Socket(d[i]) != Socket(d[j])
    ensures Sockets(Elems(d))[(address, port)] ==
            Bit(exists i :: 0 <= i < |d| && Socket(d[i]) == (address, port))
  {
    var s := Sets.Map(Socket, d);
    DistinctCountsOne(s, (address, port));
    if i :| 0 <= i < |d| && Socket(d[i]) == (address, port) {
      assert s[i] == (address, port);
    }
  }

  /** Exactly what is offered has every offered socket once, and no other. */
  lemma SocketsExact(d: seq<Endpoint>, subsets: seq<EndpointSubset>, portName: string, proto: string, address: string,
                     port: string)
    requires Exactly(d, subsets, portName, proto)
    ensures Sockets(Elems(d))[(address, port)] == Bit(OffersSocket(subsets, portName, proto, address, port))
  {
    SocketCount(d, address, port);
    if OffersSocket(subsets, portName, proto, address, port) {
      var p, target :| OfferedAt(subsets, p, portName, proto, Endpoint(address, port, target));
      assert Kept(d, Endpoint(address, port, target));
    }
    if i :| 0 <= i < |d| && Socket(d[i]) == (address, port) {
      assert d[i] in d && d[i] == Endpoint(address, port, d[i].target);
    }
  }
}
