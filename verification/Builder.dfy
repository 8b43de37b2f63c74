/** internal/ingress/controller/controller.go and util.go: building the configuration
    from the listed ingresses, the services and the endpoints. */
module Builder {
  import opened Go
  import opened Sets
  import opened Types
  import opened Endpoints
  import opened Sorting
  import Store

  /** What one pass over the listers sees besides the ingresses. `resolvable` holds
      the external names that are addresses or that DNS resolves. */
  datatype Snapshot = Snapshot(services: map<string, Service>, endpoints: map<string, EndpointsObject>,
                               resolvable: set<string>)

  /** The informer caches file each service under its own key. */
  ghost predicate ServicesKeyed(snap: Snapshot) {
    forall k :: k in snap.services ==> MetaNamespaceKey(snap.services[k].namespace, snap.services[k].name) == k
  }

  const TCP := "TCP"

  // ---- serviceEndpoints ------------------------------------------------------

  predicate MatchesPort(p: ServicePort, backendPort: string) {
    Itoa(p.port) == backendPort || p.targetPort.String() == backendPort || p.name == backendPort
  }

  /** getEndpoints for a named port of a service with its own endpoints. */
  function PortEndpoints(snap: Snapshot, svc: Service, portName: string): seq<Endpoint> {
    var key := MetaNamespaceKey(svc.namespace, svc.name);
    if key !in snap.endpoints then []
    else FirstOccurrences(Endpoints.Servers(snap.endpoints[key].subsets, portName, TCP))
  }

  /** getEndpoints for an ExternalName service. */
  function ExternalEndpoints(snap: Snapshot, target: string, backendPort: string): seq<Endpoint> {
    match Atoi(backendPort)
    case Nil => []
    case Ref(port) => if port <= 0 || target !in snap.resolvable then [] else [Endpoint(target, Itoa(port), Nil)]
  }

  function EndpointsFrom(snap: Snapshot, svc: Service, k: nat, backendPort: string): seq<Endpoint>
    requires k <= |svc.ports|
    decreases |svc.ports| - k
  {
    if k == |svc.ports| then []
    else if MatchesPort(svc.ports[k], backendPort) then PortEndpoints(snap, svc, svc.ports[k].name)
    else EndpointsFrom(snap, svc, k + 1, backendPort)
  }

  function ServiceEndpoints(snap: Snapshot, svcKey: string, backendPort: string): seq<Endpoint> {
    if svcKey !in snap.services then []
    else
      var svc := snap.services[svcKey];
      if svc.kind.ExternalName? then ExternalEndpoints(snap, svc.kind.target, backendPort)
      else EndpointsFrom(snap, svc, 0, backendPort)
  }

  // ---- Which sockets a service port has --------------------------------------

  /** An ingress asks for this port: by its name, its number or its target port. */
  ghost predicate AskedFor(p: ServicePort, backendPort: string) {
    || backendPort == p.name
    || backendPort == Itoa(p.port)
    || match p.targetPort case IntVal(n) => backendPort == Itoa(n) case StrVal(text) => backendPort == text
  }

  ghost predicate FirstAskedFor(ports: seq<ServicePort>, backendPort: string, k: nat) {
    k < |ports| && AskedFor(ports[k], backendPort) && forall j :: 0 <= j < k ==> !AskedFor(ports[j], backendPort)
  }

  /** The store serves this socket for a service and a port: it is the external name at a positive
      port number, if the name resolves; or the Endpoints object of the service offers it to the
      first port that was asked for, over TCP. */
  ghost predicate ServesSocket(snap: Snapshot, svcKey: string, backendPort: string, address: string, port: string) {
    && svcKey in snap.services
    && var svc := snap.services[svcKey];
       match svc.kind
       case ExternalName(name) =>
         && address == name && name in snap.resolvable
         && Atoi(backendPort).Ref? && Atoi(backendPort).v > 0 && port == Itoa(Atoi(backendPort).v)
       case ClusterIP => FirstPortServes(snap, svc, backendPort, address, port)
  }

  ghost predicate FirstPortServes(snap: Snapshot, svc: Service, backendPort: string, address: string, port: string) {
    exists k :: FirstAskedFor(svc.ports, backendPort, k) && PortServes(snap, svc, k, address, port)
  }

  ghost predicate PortServes(snap: Snapshot, svc: Service, k: nat, address: string, port: string)
    requires k < |svc.ports|
  {
    var key := MetaNamespaceKey(svc.namespace, svc.name);
    key in snap.endpoints && OffersSocket(snap.endpoints[key].subsets, svc.ports[k].name, "TCP", address, port)
  }

  lemma PortEndpointsExact(snap: Snapshot, svc: Service, k: nat, address: string, port: string)
    requires k < |svc.ports|
    ensures Sockets(Elems(PortEndpoints(snap, svc, svc.ports[k].name)))[(address, port)] ==
            Bit(PortServes(snap, svc, k, address, port))
  {
    var key := MetaNamespaceKey(svc.namespace, svc.name);
    if key in snap.endpoints {
      EndpointsExact(snap.endpoints[key].subsets, svc.ports[k].name, TCP);
      SocketsExact(PortEndpoints(snap, svc, svc.ports[k].name), snap.endpoints[key].subsets, svc.ports[k].name, TCP,
                   address, port);
    }
  }

  lemma {:induction false} EndpointsFromExact(snap: Snapshot, svc: Service, n: nat, backendPort: string,
                                              address: string, port: string)
    requires n <= |svc.ports| && forall j :: 0 <= j < n ==> !AskedFor(svc.ports[j], backendPort)
    ensures Sockets(Elems(EndpointsFrom(snap, svc, n, backendPort)))[(address, port)] ==
            Bit(FirstPortServes(snap, svc, backendPort, address, port))
    decreases |svc.ports| - n
  {
    if n < |svc.ports| {
      if MatchesPort(svc.ports[n], backendPort) {
        FirstPortIs(snap, svc, n, backendPort, address, port);
        PortEndpointsExact(snap, svc, n, address, port);
      } else {
        EndpointsFromExact(snap, svc, n + 1, backendPort, address, port);
      }
    }
  }

  lemma FirstPortIs(snap: Snapshot, svc: Service, n: nat, backendPort: string, address: string, port: string)
    requires FirstAskedFor(svc.ports, backendPort, n)
    ensures FirstPortServes(snap, svc, backendPort, address, port) <==> PortServes(snap, svc, n, address, port)
  {
  }

  /** The endpoints of a service port have every served socket once, and no other. */
  lemma ServiceEndpointsExact(snap: Snapshot, svcKey: string, backendPort: string, address: string, port: string)
    ensures Sockets(Elems(ServiceEndpoints(snap, svcKey, backendPort)))[(address, port)] ==
            Bit(ServesSocket(snap, svcKey, backendPort, address, port))
  {
    if svcKey in snap.services {
      var svc := snap.services[svcKey];
      if svc.kind.ExternalName? {
        SocketCount(ExternalEndpoints(snap, svc.kind.target, backendPort), address, port);
      } else {
        EndpointsFromExact(snap, svc, 0, backendPort, address, port);
      }
    }
  }

  /** A path that gives the number of the service's only port, or its name, has what the Endpoints
      object offers to that port. */
  lemma AskingByNumberOrName(snap: Snapshot, svcKey: string, path: Path, address: string, port: string)
    requires svcKey in snap.services && snap.services[svcKey].kind.ClusterIP? && |snap.services[svcKey].ports| == 1
    requires var p := snap.services[svcKey].ports[0]; path.servicePort in {IntVal(p.port), StrVal(p.name)}
    ensures Sockets(Elems(ServiceEndpoints(snap, svcKey, path.servicePort.String())))[(address, port)] ==
            Bit(PortServes(snap, snap.services[svcKey], 0, address, port))
  {
    var svc, text := snap.services[svcKey], path.servicePort.String();
    ServiceEndpointsExact(snap, svcKey, text, address, port);
    FirstPortIs(snap, svc, 0, text, address, port);
  }

  method GetServiceEndpoints(snap: Snapshot, svcKey: string, backendPort: string)
    returns (upstreams: seq<Endpoint>, err: bool)
    ensures upstreams == ServiceEndpoints(snap, svcKey, backendPort)
    ensures forall address, port ::
              Sockets(Elems(upstreams))[(address, port)] == Bit(ServesSocket(snap, svcKey, backendPort, address, port))
    ensures err <==> svcKey !in snap.services
  {
    forall address, port
      ensures Sockets(Elems(ServiceEndpoints(snap, svcKey, backendPort)))[(address, port)] ==
              Bit(ServesSocket(snap, svcKey, backendPort, address, port))
    {
      ServiceEndpointsExact(snap, svcKey, backendPort, address, port);
    }
    upstreams := [];
    if svcKey !in snap.services {
      return [], true;
    }
    err := false;
    var svc := snap.services[svcKey];
    if svc.kind.ExternalName? {
      return ExternalEndpoints(snap, svc.kind.target, backendPort), false;
    }
    for k := 0 to |svc.ports|
      invariant upstreams == []
      invariant EndpointsFrom(snap, svc, 0, backendPort) == EndpointsFrom(snap, svc, k, backendPort)
    {
      if MatchesPort(svc.ports[k], backendPort) {
        var key := MetaNamespaceKey(svc.namespace, svc.name);
        if key in snap.endpoints {
          upstreams := Endpoints.GetEndpoints(snap.endpoints[key].subsets, svc.ports[k].name, TCP);
        }
        return;
      }
    }
  }

  // ---- The rules, in list order ----------------------------------------------

  /** Where a rule routes: the backend of its first path. */
  datatype Target = Target(namespace: string, service: string, port: IntOrString) {
    /** upstreamName. */
    function Upstream(): string { namespace + "-" + service + "-" + port.String() }
    function SvcKey(): string { namespace + "/" + service }
  }

  datatype HostRule = HostRule(host: string, target: Target)

  /** The first path is read without a check. */
  predicate Usable(ing: Ingress) {
    forall i :: 0 <= i < |ing.rules| ==> ing.rules[i].http.Ref? && |ing.rules[i].http.v| > 0
  }

  predicate AllUsable(ings: seq<Ingress>) {
    forall i :: 0 <= i < |ings| ==> Usable(ings[i])
  }

  function RuleOf(ing: Ingress, i: nat): HostRule
    requires Usable(ing) && i < |ing.rules|
  {
    var p := ing.rules[i].http.v[0];
    HostRule(ing.rules[i].host, Target(ing.namespace, p.serviceName, p.servicePort))
  }

  /** The rules `c`, followed by the first `n` rules of an ingress. */
  function AppendRules(c: seq<HostRule>, ing: Ingress, n: nat): seq<HostRule>
    requires Usable(ing) && n <= |ing.rules|
  {
    if n == 0 then c else AppendRules(c, ing, n - 1) + [RuleOf(ing, n - 1)]
  }

  function Rules(ings: seq<Ingress>): seq<HostRule>
    requires AllUsable(ings)
  {
    if ings == [] then []
    else var last := ings[|ings| - 1]; AppendRules(Rules(ings[..|ings| - 1]), last, |last.rules|)
  }

  lemma {:induction false} AppendKeeps(c: seq<HostRule>, ing: Ingress, n: nat)
    requires Usable(ing) && n <= |ing.rules|
    ensures c <= AppendRules(c, ing, n) && |AppendRules(c, ing, n)| == |c| + n
    ensures forall j :: 0 <= j < n ==> AppendRules(c, ing, n)[|c| + j] == RuleOf(ing, j)
  {
    if n > 0 {
      AppendKeeps(c, ing, n - 1);
    }
  }

  lemma LastAppended(c: seq<HostRule>, ing: Ingress, n: nat)
    requires Usable(ing) && n < |ing.rules|
    ensures var rules := AppendRules(c, ing, n + 1);
            |rules| > 0 && rules[..|rules| - 1] == AppendRules(c, ing, n) && rules[|rules| - 1] == RuleOf(ing, n)
  {
    var rules := AppendRules(c, ing, n + 1);
    assert rules == AppendRules(c, ing, n) + [RuleOf(ing, n)];
  }

  lemma RulesStep(ings: seq<Ingress>, i: nat)
    requires AllUsable(ings) && i < |ings|
    ensures Rules(ings[..i + 1]) == AppendRules(Rules(ings[..i]), ings[i], |ings[i].rules|)
  {
    assert ings[..i + 1][..i] == ings[..i];
  }

  lemma {:induction false} RuleInside(ings: seq<Ingress>, i: nat, j: nat)
    requires AllUsable(ings) && i < |ings| && j < |ings[i].rules|
    ensures exists k :: 0 <= k < |Rules(ings)| && Rules(ings)[k] == RuleOf(ings[i], j)
    decreases |ings|
  {
    var n := |ings| - 1;
    var before := Rules(ings[..n]);
    AppendKeeps(before, ings[n], |ings[n].rules|);
    if i < n {
      RuleInside(ings[..n], i, j);
      var k :| 0 <= k < |before| && before[k] == RuleOf(ings[i], j);
      assert Rules(ings)[k] == before[k];
    } else {
      assert Rules(ings)[|before| + j] == RuleOf(ings[i], j);
    }
  }

  lemma {:induction false} RuleComesFrom(ings: seq<Ingress>, k: nat) returns (i: nat, j: nat)
    requires AllUsable(ings) && k < |Rules(ings)|
    ensures i < |ings| && j < |ings[i].rules| && Rules(ings)[k] == RuleOf(ings[i], j)
    decreases |ings|
  {
    var n := |ings| - 1;
    var before := Rules(ings[..n]);
    AppendKeeps(before, ings[n], |ings[n].rules|);
    if k < |before| {
      i, j := RuleComesFrom(ings[..n], k);
    } else {
      i, j := n, k - |before|;
    }
  }

  // ---- createUpstreams and createServers -------------------------------------

  function BackendFor(snap: Snapshot, t: Target): Backend {
    Backend(t.Upstream(),
            if t.SvcKey() in snap.services then Ref(snap.services[t.SvcKey()]) else Nil,
            Elems(ServiceEndpoints(snap, t.SvcKey(), t.port.String())))
  }

  function Upstreams(snap: Snapshot, rules: seq<HostRule>): map<string, Backend> {
    if rules == [] then map[]
    else
      var t := rules[|rules| - 1].target;
      Upstreams(snap, rules[..|rules| - 1])[t.Upstream() := BackendFor(snap, t)]
  }

  /** createServers: the first rule of a host decides its backend. A missing upstream
      would be a nil backend; none is missing. */
  function ServersFor(upstreams: map<string, Backend>, rules: seq<HostRule>): map<string, Ptr<Backend>> {
    if rules == [] then map[]
    else
      var before := ServersFor(upstreams, rules[..|rules| - 1]);
      var r := rules[|rules| - 1];
      if r.host == "" || r.host in before then before
      else before[r.host := if r.target.Upstream() in upstreams then Ref(upstreams[r.target.Upstream()]) else Nil]
  }

  function ServerMap(snap: Snapshot, rules: seq<HostRule>): map<string, Ptr<Backend>> {
    ServersFor(Upstreams(snap, rules), rules)
  }

  method CreateUpstream(snap: Snapshot, target: Target) returns (backend: Backend)
    ensures backend == BackendFor(snap, target)
  {
    backend := Backend(target.Upstream(), Nil, Elems([]));
    var endps, err := GetServiceEndpoints(snap, target.SvcKey(), target.port.String());
    backend := backend.(endpoints := Elems(endps));
    if target.SvcKey() in snap.services {
      backend := backend.(service := Ref(snap.services[target.SvcKey()]));
    }
  }

  lemma UpstreamsStep(snap: Snapshot, before: seq<HostRule>, ing: Ingress, j: nat)
    requires Usable(ing) && j < |ing.rules|
    ensures var t := RuleOf(ing, j).target;
            Upstreams(snap, AppendRules(before, ing, j + 1)) ==
            Upstreams(snap, AppendRules(before, ing, j))[t.Upstream() := BackendFor(snap, t)]
  {
    LastAppended(before, ing, j);
  }

  /** The loop over the rules of one ingress. */
  method AddUpstreams(snap: Snapshot, ing: Ingress, ghost before: seq<HostRule>, upstreams: map<string, Backend>)
    returns (upstreams': map<string, Backend>)
    requires Usable(ing) && upstreams == Upstreams(snap, before)
    ensures upstreams' == Upstreams(snap, AppendRules(before, ing, |ing.rules|))
  {
    upstreams' := upstreams;
    for j := 0 to |ing.rules|
      invariant upstreams' == Upstreams(snap, AppendRules(before, ing, j))
    {
      UpstreamsStep(snap, before, ing, j);
      var path := ing.rules[j].http.v[0];
      var target := Target(ing.namespace, path.serviceName, path.servicePort);
      var backend := CreateUpstream(snap, target);
      upstreams' := upstreams'[target.Upstream() := backend];
    }
  }

  method CreateUpstreams(snap: Snapshot, data: seq<Ingress>) returns (upstreams: map<string, Backend>)
    requires AllUsable(data)
    ensures upstreams == Upstreams(snap, Rules(data))
  {
    upstreams := map[];
    for i := 0 to |data|
      invariant upstreams == Upstreams(snap, Rules(data[..i]))
    {
      RulesStep(data, i);
      upstreams := AddUpstreams(snap, data[i], Rules(data[..i]), upstreams);
    }
    assert data[..|data|] == data;
  }

  lemma ServersStep(upstreams: map<string, Backend>, before: seq<HostRule>, ing: Ingress, j: nat)
    requires Usable(ing) && j < |ing.rules|
    ensures var servers, r := ServersFor(upstreams, AppendRules(before, ing, j)), RuleOf(ing, j);
            ServersFor(upstreams, AppendRules(before, ing, j + 1)) ==
            if r.host == "" || r.host in servers then servers
            else
              servers[r.host := if r.target.Upstream() in upstreams then Ref(upstreams[r.target.Upstream()]) else Nil]
  {
    LastAppended(before, ing, j);
  }

  /** The loop over the rules of one ingress. */
  method AddServers(ing: Ingress, upstreams: map<string, Backend>, ghost before: seq<HostRule>,
                    servers: map<string, Ptr<Backend>>)
    returns (servers': map<string, Ptr<Backend>>)
    requires Usable(ing) && servers == ServersFor(upstreams, before)
    ensures servers' == ServersFor(upstreams, AppendRules(before, ing, |ing.rules|))
  {
    servers' := servers;
    for j := 0 to |ing.rules|
      invariant servers' == ServersFor(upstreams, AppendRules(before, ing, j))
    {
      ServersStep(upstreams, before, ing, j);
      var host := ing.rules[j].host;
      if host == "" {
        continue;
      }
      if host in servers' {
        continue;
      }
      var path := ing.rules[j].http.v[0];
      var name := Target(ing.namespace, path.serviceName, path.servicePort).Upstream();
      servers' := servers'[host := if name in upstreams then Ref(upstreams[name]) else Nil];
    }
  }

  method CreateServers(data: seq<Ingress>, upstreams: map<string, Backend>) returns (servers: map<string, Ptr<Backend>>)
    requires AllUsable(data)
    ensures servers == ServersFor(upstreams, Rules(data))
  {
    servers := map[];
    for i := 0 to |data|
      invariant servers == ServersFor(upstreams, Rules(data[..i]))
    {
      RulesStep(data, i);
      servers := AddServers(data[i], upstreams, Rules(data[..i]), servers);
    }
    assert data[..|data|] == data;
  }

  // ---- getConfiguration ------------------------------------------------------

  ghost predicate EntriesMatch(entries: seq<Ptr<ConfigurationBackend>>, servers: map<string, Ptr<Backend>>,
                               hosts: set<string>) {
    forall i :: 0 <= i < |entries| ==>
      && entries[i].Ref? && entries[i].v.hostname in hosts && entries[i].v.hostname in servers
      && entries[i].v.backend == servers[entries[i].v.hostname]
  }

  ghost predicate HostsOnce(entries: seq<Ptr<ConfigurationBackend>>)
    requires forall i :: 0 <= i < |entries| ==> entries[i].Ref?
  {
    forall i, j :: 0 <= i < j < |entries| ==> entries[i].v.hostname != entries[j].v.hostname
  }

  ghost predicate HasEntry(entries: seq<Ptr<ConfigurationBackend>>, host: string) {
    exists i :: 0 <= i < |entries| && entries[i].Ref? && entries[i].v.hostname == host
  }

  /** `entries` lists each of `hosts` once, with its server. */
  ghost predicate Entries(entries: seq<Ptr<ConfigurationBackend>>, servers: map<string, Ptr<Backend>>,
                          hosts: set<string>) {
    EntriesMatch(entries, servers, hosts) && HostsOnce(entries) && forall h :: h in hosts ==> HasEntry(entries, h)
  }

  /** A configuration that ranging over `servers`, in some order, can produce. */
  ghost predicate ConfigurationOf(c: Configuration, servers: map<string, Ptr<Backend>>) {
    if servers == map[] then c.services == NilSlice
    else c.services.Elems? && Entries(c.services.s, servers, servers.Keys)
  }

  /** getConfiguration; the range over the server map takes any order. */
  method GetConfiguration(snap: Snapshot, ings: seq<Ingress>) returns (c: Configuration)
    requires AllUsable(ings)
    ensures ConfigurationOf(c, ServerMap(snap, Rules(ings)))
  {
    var upstreams := CreateUpstreams(snap, ings);
    var servers := CreateServers(ings, upstreams);
    var entries: seq<Ptr<ConfigurationBackend>> := [];
    var todo := servers.Keys;
    while todo != {}
      invariant todo <= servers.Keys
      invariant Entries(entries, servers, servers.Keys - todo)
      decreases |todo|
    {
      var host :| host in todo;
      var longer := entries + [Ref(ConfigurationBackend(servers[host], host))];
      OneMoreEntry(entries, servers, servers.Keys - todo, host);
      assert servers.Keys - (todo - {host}) == servers.Keys - todo + {host};
      entries := longer;
      todo := todo - {host};
    }
    assert servers.Keys - todo == servers.Keys;
    c := Configuration(if entries == [] then NilSlice else Elems(entries));
    assert entries != [] ==> entries[0].v.hostname in servers;
    if servers != map[] {
      var h :| h in servers;
      assert h in servers.Keys;
    }
  }

  lemma OneMoreEntry(entries: seq<Ptr<ConfigurationBackend>>, servers: map<string, Ptr<Backend>>, hosts: set<string>,
                     host: string)
    requires Entries(entries, servers, hosts) && host in servers && host !in hosts
    ensures Entries(entries + [Ref(ConfigurationBackend(servers[host], host))], servers, hosts + {host})
  {
    var longer := entries + [Ref(ConfigurationBackend(servers[host], host))];
    forall h | h in hosts + {host} ensures HasEntry(longer, h) {
      if h != host {
        var i :| 0 <= i < |entries| && entries[i].Ref? && entries[i].v.hostname == h;
        assert longer[i] == entries[i];
      } else {
        assert longer[|entries|].v.hostname == host;
      }
    }
  }

  lemma {:induction false} EntriesExist(servers: map<string, Ptr<Backend>>, hosts: set<string>)
    returns (entries: seq<Ptr<ConfigurationBackend>>)
    requires hosts <= servers.Keys
    ensures Entries(entries, servers, hosts) && |entries| == |hosts|
    decreases |hosts|
  {
    if hosts == {} {
      entries := [];
    } else {
      var h :| h in hosts;
      entries := EntriesExist(servers, hosts - {h});
      OneMoreEntry(entries, servers, hosts - {h}, h);
      entries := entries + [Ref(ConfigurationBackend(servers[h], h))];
      assert hosts - {h} + {h} == hosts;
    }
  }

  lemma ConfigurationExists(servers: map<string, Ptr<Backend>>) returns (c: Configuration)
    ensures ConfigurationOf(c, servers)
  {
    var entries := EntriesExist(servers, servers.Keys);
    c := Configuration(if servers == map[] then NilSlice else Elems(entries));
  }

  lemma EntryIff(s: seq<Ptr<ConfigurationBackend>>, servers: map<string, Ptr<Backend>>, x: Ptr<ConfigurationBackend>)
    requires Entries(s, servers, servers.Keys)
    ensures x in s <==> x.Ref? && x.v.hostname in servers && x.v.backend == servers[x.v.hostname]
  {
    if x.Ref? && x.v.hostname in servers && x.v.backend == servers[x.v.hostname] {
      var i :| 0 <= i < |s| && s[i].v.hostname == x.v.hostname;
      assert s[i] == x;
    }
  }

  /** Any two iteration orders over one server map give equal configurations. */
  lemma IterationOrderDoesNotShow(c1: Configuration, c2: Configuration, servers: map<string, Ptr<Backend>>)
    requires ConfigurationOf(c1, servers) && ConfigurationOf(c2, servers)
    ensures ConfigurationEqual(Ref(c1), Ref(c2))
  {
    ConfigurationBackendEqualIsEquivalence();
    if servers != map[] {
      var s, t := c1.services.s, c2.services.s;
      forall x ensures multiset(s)[x] == multiset(t)[x] {
        DistinctCountsOne(s, x);
        DistinctCountsOne(t, x);
        EntryIff(s, servers, x);
        EntryIff(t, servers, x);
      }
      PermutationIsSame(s, t, ConfigurationBackendEqual);
    }
  }

  /** Each ingress is usable and filed under its own key. */
  ghost predicate Keyed(derived: Store.Derived) {
    forall k :: k in derived ==> Usable(derived[k]) && Store.IngressKey(derived[k]) == k
  }

  /** Something getConfiguration can return, when the cache lists the store like this. */
  ghost predicate Generated(snap: Snapshot, derived: Store.Derived, listing: seq<Ingress>, c: Configuration) {
    && Store.Lists(listing, derived) && AllUsable(Store.InOrder(listing))
    && ConfigurationOf(c, ServerMap(snap, Rules(Store.InOrder(listing))))
  }

  /** With distinct creation times, neither the listing order of the cache nor any map
      iteration order shows: rebuilding from an unchanged store is always equal. */
  lemma OrderIndependence(snap: Snapshot, derived: Store.Derived, list1: seq<Ingress>, list2: seq<Ingress>,
                          c1: Configuration, c2: Configuration)
    requires Store.DistinctTimes(derived) && Generated(snap, derived, list1, c1) && Generated(snap, derived, list2, c2)
    ensures ConfigurationEqual(Ref(c1), Ref(c2))
  {
    Store.ListOrderDoesNotShow(list1, list2, derived);
    IterationOrderDoesNotShow(c1, c2, ServerMap(snap, Rules(Store.InOrder(list1))));
  }

  // ---- What the servers are --------------------------------------------------

  ghost predicate IsFirst(rules: seq<HostRule>, host: string, i: nat) {
    && i <= |rules| && (i < |rules| ==> rules[i].host == host)
    && forall k :: 0 <= k < i ==> rules[k].host != host
  }

  lemma FirstIsUnique(rules: seq<HostRule>, host: string, i: nat)
    requires IsFirst(rules, host, i)
    ensures FirstFor(rules, host) == i
  {
    assert IsFirst(rules, host, FirstFor(rules, host));
  }

  /** The first rule for a host, or the number of rules. */
  ghost function FirstFor(rules: seq<HostRule>, host: string): (i: nat)
    ensures IsFirst(rules, host, i)
  {
    FirstFrom(rules, host, 0)
  }

  ghost function FirstFrom(rules: seq<HostRule>, host: string, from: nat): (i: nat)
    requires from <= |rules|
    ensures from <= i <= |rules| && (i < |rules| ==> rules[i].host == host)
    ensures forall k :: from <= k < i ==> rules[k].host != host
    decreases |rules| - from
  {
    if from == |rules| || rules[from].host == host then from else FirstFrom(rules, host, from + 1)
  }

  /** Some rule of the ingress is for the host. */
  predicate Names(ing: Ingress, host: string) {
    exists j :: 0 <= j < |ing.rules| && ing.rules[j].host == host
  }

  lemma NamedIff(ings: seq<Ingress>, host: string)
    requires AllUsable(ings)
    ensures FirstFor(Rules(ings), host) < |Rules(ings)| <==> exists i :: 0 <= i < |ings| && Names(ings[i], host)
  {
    var first := FirstFor(Rules(ings), host);
    if first < |Rules(ings)| {
      var i, j := RuleComesFrom(ings, first);
      assert Names(ings[i], host);
    }
    if i :| 0 <= i < |ings| && Names(ings[i], host) {
      var j :| 0 <= j < |ings[i].rules| && ings[i].rules[j].host == host;
      RuleInside(ings, i, j);
    }
  }

  /** The last rule with the upstream name is at `l`. */
  ghost predicate IsLast(rules: seq<HostRule>, name: string, l: nat) {
    && l < |rules| && rules[l].target.Upstream() == name
    && forall k :: l < k < |rules| ==> rules[k].target.Upstream() != name
  }

  /** The last rule with an upstream name. */
  ghost function LastNamed(rules: seq<HostRule>, name: string): (i: nat)
    requires exists k :: 0 <= k < |rules| && rules[k].target.Upstream() == name
    ensures IsLast(rules, name, i)
  {
    LastNamedBelow(rules, name, |rules|)
  }

  ghost function LastNamedBelow(rules: seq<HostRule>, name: string, n: nat): (i: nat)
    requires n <= |rules| && exists k :: 0 <= k < n && rules[k].target.Upstream() == name
    ensures i < n && rules[i].target.Upstream() == name
    ensures forall k :: i < k < n ==> rules[k].target.Upstream() != name
  {
    if rules[n - 1].target.Upstream() == name then n - 1 else LastNamedBelow(rules, name, n - 1)
  }

  /** Later rules overwrite an upstream of the same name. */
  lemma {:induction false} UpstreamsAre(snap: Snapshot, rules: seq<HostRule>, i: nat)
    requires i < |rules|
    requires forall k :: i < k < |rules| ==> rules[k].target.Upstream() != rules[i].target.Upstream()
    ensures var name := rules[i].target.Upstream();
            name in Upstreams(snap, rules) && Upstreams(snap, rules)[name] == BackendFor(snap, rules[i].target)
    decreases |rules|
  {
    if i < |rules| - 1 {
      UpstreamsAre(snap, rules[..|rules| - 1], i);
    }
  }

  /** The server map has exactly the named, non-empty hosts; each gets the upstream
      its first rule names. */
  lemma {:induction false} ServersAre(upstreams: map<string, Backend>, rules: seq<HostRule>, host: string)
    ensures var i := FirstFor(rules, host);
            && (host in ServersFor(upstreams, rules) <==> host != "" && i < |rules|)
            && (host in ServersFor(upstreams, rules) && rules[i].target.Upstream() in upstreams ==>
                  ServersFor(upstreams, rules)[host] == Ref(upstreams[rules[i].target.Upstream()]))
    decreases |rules|
  {
    if rules != [] {
      var n := |rules| - 1;
      ServersAre(upstreams, rules[..n], host);
      FirstForPrefix(rules, host);
    }
  }

  lemma FirstForPrefix(rules: seq<HostRule>, host: string)
    requires rules != []
    ensures var n := |rules| - 1; var i := FirstFor(rules[..n], host);
            FirstFor(rules, host) == if i < n then i else if rules[n].host == host then n else n + 1
  {
    var n := |rules| - 1;
    var i := FirstFor(rules[..n], host);
    FirstOfLonger(rules, host, i);
    FirstIsUnique(rules, host, if i < n then i else if rules[n].host == host then n else n + 1);
  }

  lemma FirstOfLonger(rules: seq<HostRule>, host: string, i: nat)
    requires rules != [] && IsFirst(rules[..|rules| - 1], host, i)
    ensures var n := |rules| - 1;
            IsFirst(rules, host, if i < n then i else if rules[n].host == host then n else n + 1)
  {
    var init := rules[..|rules| - 1];
    assert forall k :: 0 <= k < |init| ==> rules[k] == init[k];
  }

  /** The rule whose service the host's first rule ends up routed to. */
  ghost function RoutedBy(rules: seq<HostRule>, host: string): (j: nat)
    requires FirstFor(rules, host) < |rules|
    ensures j < |rules|
  {
    LastNamed(rules, rules[FirstFor(rules, host)].target.Upstream())
  }

  /** Unconditionally: a host is served by the last rule that has the upstream name of
      the host's first rule, and every listed backend has an endpoint list. */
  lemma ServerOfHost(snap: Snapshot, rules: seq<HostRule>, host: string)
    ensures host in ServerMap(snap, rules) <==> host != "" && FirstFor(rules, host) < |rules|
    ensures host in ServerMap(snap, rules) ==>
              ServerMap(snap, rules)[host] == Ref(BackendFor(snap, rules[RoutedBy(rules, host)].target))
  {
    var ups := Upstreams(snap, rules);
    ServersAre(ups, rules, host);
    if host in ServerMap(snap, rules) {
      UpstreamsAre(snap, rules, RoutedBy(rules, host));
    }
  }

  /** Two targets read the same service port. */
  predicate SameService(t: Target, u: Target) {
    t.SvcKey() == u.SvcKey() && t.port.String() == u.port.String()
  }

  /** Each host has the endpoints of the service in its first rule. */
  ghost predicate MeetsSpec(snap: Snapshot, rules: seq<HostRule>) {
    forall host :: host in ServerMap(snap, rules) ==>
      && FirstFor(rules, host) < |rules|
      && ServerMap(snap, rules)[host].Ref?
      && (var t := rules[FirstFor(rules, host)].target;
          ServerMap(snap, rules)[host].v.endpoints == Elems(ServiceEndpoints(snap, t.SvcKey(), t.port.String())))
  }

  /** No host's first rule shares its upstream name with a last rule for another service port. */
  ghost predicate Unambiguous(rules: seq<HostRule>) {
    forall host :: host != "" && FirstFor(rules, host) < |rules| ==>
      SameService(rules[FirstFor(rules, host)].target, rules[RoutedBy(rules, host)].target)
  }

  /** A store as a cluster holds it: every service has a namespace and lies under its key. */
  ghost predicate ClusterStore(snap: Snapshot) {
    ServicesKeyed(snap) && forall k :: k in snap.services ==> snap.services[k].namespace != ""
  }

  /** For rules of namespaced ingresses, the configuration meets its specification in every
      cluster store exactly when the rules are unambiguous. */
  lemma SpecHoldsExactlyWhenUnambiguous(rules: seq<HostRule>)
    requires forall i :: 0 <= i < |rules| ==> rules[i].target.namespace != ""
    ensures Unambiguous(rules) <==> forall snap :: ClusterStore(snap) ==> MeetsSpec(snap, rules)
  {
    if Unambiguous(rules) {
      forall snap | ClusterStore(snap) ensures MeetsSpec(snap, rules) {
        UnambiguousMeetsSpec(snap, rules);
      }
    } else {
      var host :| host != "" && FirstFor(rules, host) < |rules| &&
                  !SameService(rules[FirstFor(rules, host)].target, rules[RoutedBy(rules, host)].target);
      var snap := AmbiguityShows(rules, host);
    }
  }

  /** A store in which an ambiguous host is left without the endpoints of its own service. */
  lemma AmbiguityShows(rules: seq<HostRule>, host: string) returns (snap: Snapshot)
    requires host != "" && FirstFor(rules, host) < |rules|
    requires !SameService(rules[FirstFor(rules, host)].target, rules[RoutedBy(rules, host)].target)
    requires rules[FirstFor(rules, host)].target.namespace != ""
    ensures ClusterStore(snap) && !MeetsSpec(snap, rules)
    ensures var t := rules[FirstFor(rules, host)].target;
            && ServiceEndpoints(snap, t.SvcKey(), t.port.String()) != []
            && host in ServerMap(snap, rules) && ServerMap(snap, rules)[host].Ref?
            && ServerMap(snap, rules)[host].v.endpoints == Elems([])
  {
    snap := Distinguish(rules[FirstFor(rules, host)].target, rules[RoutedBy(rules, host)].target);
    ServerOfHost(snap, rules, host);
  }

  lemma UnambiguousMeetsSpec(snap: Snapshot, rules: seq<HostRule>)
    requires Unambiguous(rules)
    ensures MeetsSpec(snap, rules)
  {
    forall host | host in ServerMap(snap, rules)
      ensures FirstFor(rules, host) < |rules| && ServerMap(snap, rules)[host].Ref?
      ensures var t := rules[FirstFor(rules, host)].target;
              ServerMap(snap, rules)[host].v.endpoints == Elems(ServiceEndpoints(snap, t.SvcKey(), t.port.String()))
    {
      ServerOfHost(snap, rules, host);
    }
  }

  /** A store that serves `t` and does not serve `u`. */
  lemma Distinguish(t: Target, u: Target) returns (snap: Snapshot)
    requires !SameService(t, u) && t.namespace != ""
    ensures ClusterStore(snap)
    ensures ServiceEndpoints(snap, t.SvcKey(), t.port.String()) != []
    ensures ServiceEndpoints(snap, u.SvcKey(), u.port.String()) == []
  {
    var number := if u.port.String() == Itoa(1) then 2 else 1;
    ItoaDigits(1);
    ItoaDigits(2);
    snap := OneService(t, number);
    OneServiceServes(t, number);
    OneServiceRefuses(t, u, number);
  }

  function OnePort(port: string, number: int): ServicePort { ServicePort(port, number, StrVal(port)) }

  function OneSubset(port: string): EndpointSubset {
    EndpointSubset([EndpointAddress("10.0.0.1", Nil)], [EndpointPort(port, 80, TCP)])
  }

  /** A store with the target's service only, with a single port and a single address. */
  function OneService(t: Target, number: int): Snapshot {
    Snapshot(map[t.SvcKey() := Service(t.namespace, t.service, ClusterIP, [OnePort(t.port.String(), number)])],
             map[t.SvcKey() := EndpointsObject("", [OneSubset(t.port.String())])], {})
  }

  lemma OneServiceServes(t: Target, number: int)
    requires t.namespace != ""
    ensures ServiceEndpoints(OneService(t, number), t.SvcKey(), t.port.String()) != []
  {
    var snap, port := OneService(t, number), t.port.String();
    var svc := snap.services[t.SvcKey()];
    OneServer(OneSubset(port), port);
    assert MatchesPort(svc.ports[0], port);
    assert MetaNamespaceKey(svc.namespace, svc.name) == t.SvcKey();
    assert EndpointsFrom(snap, svc, 0, port) == PortEndpoints(snap, svc, port);
  }

  lemma OneServiceRefuses(t: Target, u: Target, number: int)
    requires !SameService(t, u) && Itoa(number) != u.port.String()
    ensures ServiceEndpoints(OneService(t, number), u.SvcKey(), u.port.String()) == []
  {
    if t.SvcKey() == u.SvcKey() {
      var snap := OneService(t, number);
      var svc := snap.services[t.SvcKey()];
      assert !MatchesPort(svc.ports[0], u.port.String());
      assert EndpointsFrom(snap, svc, 0, u.port.String()) == EndpointsFrom(snap, svc, 1, u.port.String());
    }
  }

  lemma OneServer(subset: EndpointSubset, port: string)
    requires subset == OneSubset(port)
    ensures FirstOccurrences(Endpoints.Servers([subset], port, TCP)) != []
  {
    var e := Server(subset.addresses[0], 80);
    assert OfferedAt([subset], Position(0, 0, 0), port, TCP, e);
    EndpointsExact([subset], port, TCP);
    assert Kept(FirstOccurrences(Endpoints.Servers([subset], port, TCP)), e);
  }

  // ---- Upstream names --------------------------------------------------------

  lemma FirstDashSplits(a: string, x: string, b: string, y: string)
    requires a + "-" + x == b + "-" + y && '-' !in a && '-' !in b
    ensures a == b && x == y
  {
    var s := a + "-" + x;
    assert s[|a|] == '-' && s[|b|] == '-';
    assert |a| == |b|;
    assert a == s[..|a|] && b == s[..|b|];
    assert x == s[|a| + 1..] && y == s[|b| + 1..];
  }

  lemma LastDashSplits(a: string, p: string, b: string, q: string)
    requires a + "-" + p == b + "-" + q && '-' !in p && '-' !in q
    ensures a == b && p == q
  {
    var s := a + "-" + p;
    assert s[|a|] == '-' && s[|b|] == '-';
    assert |a| == |b|;
    assert a == s[..|a|] && b == s[..|b|];
    assert p == s[|a| + 1..] && q == s[|b| + 1..];
  }

  /** The first dash ends a namespace without dashes, the last one starts a port
      without dashes. */
  lemma UpstreamInjective(t: Target, u: Target)
    requires '-' !in t.namespace && '-' !in u.namespace && '-' !in t.port.String() && '-' !in u.port.String()
    requires t.Upstream() == u.Upstream()
    ensures t.namespace == u.namespace && t.service == u.service && t.port.String() == u.port.String()
  {
    LastDashSplits(t.namespace + "-" + t.service, t.port.String(), u.namespace + "-" + u.service, u.port.String());
    FirstDashSplits(t.namespace, t.service, u.namespace, u.service);
  }

  /** Namespaces and ports without dashes cannot collide, whatever the service names. */
  lemma NoDashesUnambiguous(rules: seq<HostRule>)
    requires forall i :: 0 <= i < |rules| ==>
               '-' !in rules[i].target.namespace && '-' !in rules[i].target.port.String()
    ensures Unambiguous(rules)
  {
    forall host | host != "" && FirstFor(rules, host) < |rules|
      ensures SameService(rules[FirstFor(rules, host)].target, rules[RoutedBy(rules, host)].target)
    {
      UpstreamInjective(rules[FirstFor(rules, host)].target, rules[RoutedBy(rules, host)].target);
    }
  }

  /** Upstream names are not unique: two hosts in two namespaces share one backend, and there
      is a store in which the first host's service has endpoints and the host gets none. */
  lemma UpstreamsCollide() returns (snap: Snapshot)
    ensures ClusterStore(snap)
    ensures var t, u := Target("a", "b-c", IntVal(80)), Target("a-b", "c", IntVal(80));
            var rules := [HostRule("t", t), HostRule("u", u)];
            && t.Upstream() == u.Upstream() && !MeetsSpec(snap, rules)
            && ServiceEndpoints(snap, t.SvcKey(), t.port.String()) != []
            && "t" in ServerMap(snap, rules) && ServerMap(snap, rules)["t"].Ref?
            && ServerMap(snap, rules)["t"].v.endpoints == Elems([])
  {
    var t, u := Target("a", "b-c", IntVal(80)), Target("a-b", "c", IntVal(80));
    var rules := [HostRule("t", t), HostRule("u", u)];
    assert t.Upstream() == "a-b-c-" + Itoa(80) == u.Upstream();
    assert FirstFor(rules, "t") == 0;
    assert rules[1].target.Upstream() == t.Upstream();
    assert RoutedBy(rules, "t") == 1;
    assert t.SvcKey() == "a/b-c" && u.SvcKey() == "a-b/c";
    assert t.SvcKey()[1] != u.SvcKey()[1];
    snap := AmbiguityShows(rules, "t");
  }

  // ---- Looking a host up -----------------------------------------------------

  /** Every generated configuration can be walked without meeting a nil, and a lookup
      misses exactly the hosts no rule names. */
  lemma TotalLookup(snap: Snapshot, rules: seq<HostRule>, c: Configuration, host: string)
    requires ConfigurationOf(c, ServerMap(snap, rules))
    ensures Routable(c)
    ensures Route(c, host).NilSlice? <==> host == "" || FirstFor(rules, host) == |rules|
    ensures Route(c, host).Elems? ==>
              var t := rules[RoutedBy(rules, host)].target;
              Route(c, host).s == ServiceEndpoints(snap, t.SvcKey(), t.port.String())
  {
    var servers := ServerMap(snap, rules);
    var s := c.services.Seq();
    forall i | 0 <= i < |s| ensures s[i].v.backend.Ref? && s[i].v.backend.v.endpoints.Elems? {
      ServerOfHost(snap, rules, s[i].v.hostname);
    }
    ServerOfHost(snap, rules, host);
    if host in servers {
      var k :| 0 <= k < |s| && s[k].v.hostname == host;
      RouteAt(s, k);
    } else {
      RouteMissing(s, host);
    }
  }

  /** Each non-empty host that some rule names appears in the configuration exactly once, and
      no other host does; with unambiguous rules it has the endpoints of the service in its
      first rule. */
  lemma ConfigurationMeetsSpec(snap: Snapshot, rules: seq<HostRule>, c: Configuration, host: string)
    requires ConfigurationOf(c, ServerMap(snap, rules))
    ensures Routable(c)
    ensures (exists i :: 0 <= i < |c.services.Seq()| && c.services.Seq()[i].v.hostname == host) <==>
              host != "" && FirstFor(rules, host) < |rules|
    ensures Unambiguous(rules) && host != "" && FirstFor(rules, host) < |rules| ==>
              var t := rules[FirstFor(rules, host)].target;
              Route(c, host) == Elems(ServiceEndpoints(snap, t.SvcKey(), t.port.String()))
  {
    TotalLookup(snap, rules, c, host);
    ServerOfHost(snap, rules, host);
  }
}
