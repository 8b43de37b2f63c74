/** internal/ingress/types.go, types_equals.go and controller/config: the routing
    configuration and its equality. */
module Types {
  import opened Go
  import opened Sets

  /** The part of an API object reference that the controller can see; `name`
      stands for the fields that equality ignores. */
  datatype ObjectRef = ObjectRef(uid: string, resourceVersion: string, name: string)

  datatype IntOrString = IntVal(i: int) | StrVal(str: string) {
    /** intstr.IntOrString.String. */
    function String(): string { if IntVal? then Itoa(i) else str }
  }

  datatype ServicePort = ServicePort(name: string, port: int, targetPort: IntOrString)
  datatype ServiceType = ClusterIP | ExternalName(target: string)
  datatype Service = Service(namespace: string, name: string, kind: ServiceType, ports: seq<ServicePort>)

  /** One path of a rule; only the backend of the first path is ever routed to. */
  datatype Path = Path(path: string, serviceName: string, servicePort: IntOrString)
  datatype Rule = Rule(host: string, http: Ptr<seq<Path>>)
  datatype Ingress = Ingress(namespace: string, name: string, created: int, annotations: map<string, string>,
                             rules: seq<Rule>)

  /** cache.MetaNamespaceKeyFunc. */
  function MetaNamespaceKey(namespace: string, name: string): string {
    if namespace == "" then name else namespace + "/" + name
  }

  datatype Endpoint = Endpoint(address: string, port: string, target: Ptr<ObjectRef>)
  datatype Backend = Backend(name: string, service: Ptr<Service>, endpoints: Slice<Endpoint>)
  datatype ConfigurationBackend = ConfigurationBackend(backend: Ptr<Backend>, hostname: string)
  datatype Configuration = Configuration(services: Slice<Ptr<ConfigurationBackend>>)

  // ---- Equality --------------------------------------------------------------
  // Go first compares the two addresses and answers true when they are the same.
  // Every comparison below is reflexive, so that shortcut never changes an answer.

  /** Endpoint.Equal. */
  predicate EndpointEqual(e1: Endpoint, e2: Endpoint) {
    && e1.address == e2.address
    && e1.port == e2.port
    && (if e1.target.Nil? || e2.target.Nil? then e1.target.Nil? && e2.target.Nil?
        else e1.target.v.uid == e2.target.v.uid && e1.target.v.resourceVersion == e2.target.v.resourceVersion)
  }

  predicate ServiceEqual(s1: Ptr<Service>, s2: Ptr<Service>) {
    if s1.Nil? || s2.Nil? then s1.Nil? && s2.Nil?
    else s1.v.namespace == s2.v.namespace && s1.v.name == s2.v.name
  }

  /** Backend.Equal. */
  predicate BackendEqual(b1: Ptr<Backend>, b2: Ptr<Backend>) {
    if b1.Nil? || b2.Nil? then b1.Nil? && b2.Nil?
    else
      && b1.v.name == b2.v.name
      && ServiceEqual(b1.v.service, b2.v.service)
      && Same(b1.v.endpoints, b2.v.endpoints, EndpointEqual)
  }

  /** ConfigurationBackend.Equal. */
  predicate ConfigurationBackendEqual(s1: Ptr<ConfigurationBackend>, s2: Ptr<ConfigurationBackend>) {
    if s1.Nil? || s2.Nil? then s1.Nil? && s2.Nil?
    else s1.v.hostname == s2.v.hostname && BackendEqual(s1.v.backend, s2.v.backend)
  }

  /** Configuration.Equal. */
  predicate ConfigurationEqual(c1: Ptr<Configuration>, c2: Ptr<Configuration>) {
    if c1.Nil? || c2.Nil? then c1.Nil? && c2.Nil?
    else Same(c1.v.services, c2.v.services, ConfigurationBackendEqual)
  }

  lemma EndpointEqualIsEquivalence()
    ensures Equivalence(EndpointEqual)
  {
  }

  lemma BackendEqualIsEquivalence()
    ensures Equivalence(BackendEqual)
  {
    forall b1, b2, b3
      ensures BackendEqual(b1, b1)
      ensures BackendEqual(b1, b2) ==> BackendEqual(b2, b1)
      ensures BackendEqual(b1, b2) && BackendEqual(b2, b3) ==> BackendEqual(b1, b3)
    {
      BackendEqualLaws(b1, b2, b3);
    }
  }

  lemma BackendEqualLaws(b1: Ptr<Backend>, b2: Ptr<Backend>, b3: Ptr<Backend>)
    ensures BackendEqual(b1, b1)
    ensures BackendEqual(b1, b2) ==> BackendEqual(b2, b1)
    ensures BackendEqual(b1, b2) && BackendEqual(b2, b3) ==> BackendEqual(b1, b3)
  {
    EndpointEqualIsEquivalence();
    SameIsEquivalence(EndpointEqual);
  }

  lemma ConfigurationBackendEqualIsEquivalence()
    ensures Equivalence(ConfigurationBackendEqual)
  {
    forall s1, s2, s3
      ensures ConfigurationBackendEqual(s1, s1)
      ensures ConfigurationBackendEqual(s1, s2) ==> ConfigurationBackendEqual(s2, s1)
      ensures ConfigurationBackendEqual(s1, s2) && ConfigurationBackendEqual(s2, s3) ==>
              ConfigurationBackendEqual(s1, s3)
    {
      ConfigurationBackendEqualLaws(s1, s2, s3);
    }
  }

  lemma ConfigurationBackendEqualLaws(s1: Ptr<ConfigurationBackend>, s2: Ptr<ConfigurationBackend>,
                                      s3: Ptr<ConfigurationBackend>)
    ensures ConfigurationBackendEqual(s1, s1)
    ensures ConfigurationBackendEqual(s1, s2) ==> ConfigurationBackendEqual(s2, s1)
    ensures ConfigurationBackendEqual(s1, s2) && ConfigurationBackendEqual(s2, s3) ==> ConfigurationBackendEqual(s1, s3)
  {
    var nil := Nil;
    BackendEqualLaws(if s1.Ref? then s1.v.backend else nil, if s2.Ref? then s2.v.backend else nil,
                     if s3.Ref? then s3.v.backend else nil);
  }

  lemma ConfigurationEqualIsEquivalence()
    ensures Equivalence(ConfigurationEqual)
  {
    forall c1, c2, c3
      ensures ConfigurationEqual(c1, c1)
      ensures ConfigurationEqual(c1, c2) ==> ConfigurationEqual(c2, c1)
      ensures ConfigurationEqual(c1, c2) && ConfigurationEqual(c2, c3) ==> ConfigurationEqual(c1, c3)
    {
      ConfigurationEqualLaws(c1, c2, c3);
    }
  }

  lemma ConfigurationEqualLaws(c1: Ptr<Configuration>, c2: Ptr<Configuration>, c3: Ptr<Configuration>)
    ensures ConfigurationEqual(c1, c1)
    ensures ConfigurationEqual(c1, c2) ==> ConfigurationEqual(c2, c1)
    ensures ConfigurationEqual(c1, c2) && ConfigurationEqual(c2, c3) ==> ConfigurationEqual(c1, c3)
  {
    ConfigurationBackendEqualIsEquivalence();
    SameIsEquivalence(ConfigurationBackendEqual);
  }

  // ---- What equality sees ----------------------------------------------------

  /** An endpoint is its address, its port, and the UID and version of its target. */
  datatype EndpointView = EndpointView(address: string, port: string, target: Ptr<(string, string)>)
  /** A backend is its name, the namespace and name of its service, and its endpoints in any order. */
  datatype BackendView = BackendView(name: string, service: Ptr<(string, string)>,
                                     endpoints: Ptr<multiset<EndpointView>>)
  datatype EntryView = EntryView(hostname: string, backend: Ptr<BackendView>)

  ghost function ViewEndpoint(e: Endpoint): EndpointView {
    EndpointView(e.address, e.port,
                 match e.target case Nil => Nil case Ref(t) => Ref((t.uid, t.resourceVersion)))
  }

  ghost function ViewEndpoints(s: Slice<Endpoint>): Ptr<multiset<EndpointView>> {
    match s case NilSlice => Nil case Elems(es) => Ref(multiset(Sets.Map(ViewEndpoint, es)))
  }

  ghost function ViewBackend(b: Ptr<Backend>): Ptr<BackendView> {
    match b
    case Nil => Nil
    case Ref(v) =>
      Ref(BackendView(v.name, match v.service case Nil => Nil case Ref(svc) => Ref((svc.namespace, svc.name)),
                      ViewEndpoints(v.endpoints)))
  }

  ghost function ViewEntry(b: Ptr<ConfigurationBackend>): Ptr<EntryView> {
    match b case Nil => Nil case Ref(v) => Ref(EntryView(v.hostname, ViewBackend(v.backend)))
  }

  /** A configuration is its entries in any order, or nil. */
  ghost function ViewConfiguration(c: Configuration): Ptr<multiset<Ptr<EntryView>>> {
    match c.services case NilSlice => Nil case Elems(s) => Ref(multiset(Sets.Map(ViewEntry, s)))
  }

  /** Endpoint lists compare equal exactly when both are nil, or neither is and they hold the
      same endpoints, each equally often, by address, port and target. */
  lemma EndpointsEqualIffSameViews(a: Slice<Endpoint>, b: Slice<Endpoint>)
    ensures Same(a, b, EndpointEqual) <==> ViewEndpoints(a) == ViewEndpoints(b)
  {
    SameIffSharing(a, b, EndpointEqual, ViewEndpoint);
  }

  lemma BackendsEqualIffSameViews(b1: Ptr<Backend>, b2: Ptr<Backend>)
    ensures BackendEqual(b1, b2) <==> ViewBackend(b1) == ViewBackend(b2)
  {
    if b1.Ref? && b2.Ref? {
      EndpointsEqualIffSameViews(b1.v.endpoints, b2.v.endpoints);
    }
  }

  lemma EntriesEqualIffSameViews(s1: Ptr<ConfigurationBackend>, s2: Ptr<ConfigurationBackend>)
    ensures ConfigurationBackendEqual(s1, s2) <==> ViewEntry(s1) == ViewEntry(s2)
  {
    if s1.Ref? && s2.Ref? {
      BackendsEqualIffSameViews(s1.v.backend, s2.v.backend);
    }
  }

  /** Configurations compare equal exactly when both have nil services, or neither has and they
      hold the same entries, each equally often: by hostname, and the backend by its name, its
      service's namespace and name, and its endpoints by address, port and target. */
  lemma ConfigurationsEqualIffSameViews(c1: Configuration, c2: Configuration)
    ensures ConfigurationEqual(Ref(c1), Ref(c2)) <==> ViewConfiguration(c1) == ViewConfiguration(c2)
  {
    forall s1, s2 ensures ConfigurationBackendEqual(s1, s2) <==> ViewEntry(s1) == ViewEntry(s2) {
      EntriesEqualIffSameViews(s1, s2);
    }
    SameIffSharing(c1.services, c2.services, ConfigurationBackendEqual, ViewEntry);
  }

  // ---- Routing ---------------------------------------------------------------

  /** Every listed backend can be dereferenced, with a non-nil endpoint list, and
      no host is listed twice. */
  ghost predicate Routable(c: Configuration) {
    var s := c.services.Seq();
    && (forall i :: 0 <= i < |s| ==> s[i].Ref? && s[i].v.backend.Ref? && s[i].v.backend.v.endpoints.Elems?)
    && (forall i, j :: 0 <= i < j < |s| ==> s[i].v.hostname != s[j].v.hostname)
  }

  /** The endpoints the handler finds for a host: those of its first entry. */
  ghost function Route(c: Configuration, host: string): Slice<Endpoint>
    requires Routable(c)
  {
    RouteIn(c.services.Seq(), host)
  }

  ghost function RouteIn(s: seq<Ptr<ConfigurationBackend>>, host: string): (r: Slice<Endpoint>)
    requires forall i :: 0 <= i < |s| ==> s[i].Ref? && s[i].v.backend.Ref?
  {
    if s == [] then NilSlice
    else if s[0].v.hostname == host then s[0].v.backend.v.endpoints
    else RouteIn(s[1..], host)
  }

  lemma {:induction false} RouteAt(s: seq<Ptr<ConfigurationBackend>>, k: nat)
    requires forall i :: 0 <= i < |s| ==> s[i].Ref? && s[i].v.backend.Ref?
    requires k < |s| && forall i :: 0 <= i < k ==> s[i].v.hostname != s[k].v.hostname
    ensures RouteIn(s, s[k].v.hostname) == s[k].v.backend.v.endpoints
  {
    if k > 0 {
      RouteAt(s[1..], k - 1);
    }
  }

  lemma {:induction false} RouteMissing(s: seq<Ptr<ConfigurationBackend>>, host: string)
    requires forall i :: 0 <= i < |s| ==> s[i].Ref? && s[i].v.backend.Ref? && s[i].v.hostname != host
    ensures RouteIn(s, host) == NilSlice
  {
    if s != [] {
      RouteMissing(s[1..], host);
    }
  }

  /** Where an endpoint is reached. */
  function Socket(e: Endpoint): (string, string) { (e.address, e.port) }

  ghost function Sockets(s: Slice<Endpoint>): multiset<(string, string)> {
    multiset(Map(Socket, s.Seq()))
  }

  lemma SameEndpointsSameSockets(a: Slice<Endpoint>, b: Slice<Endpoint>)
    requires Same(a, b, EndpointEqual)
    ensures a.NilSlice? == b.NilSlice? && |a.Seq()| == |b.Seq()| && Sockets(a) == Sockets(b)
  {
    if a.Elems? {
      MatchedListsShare(a.s, b.s, EndpointEqual, Socket);
    }
  }

  /** The entry a host is routed by has an equal entry on the other side. */
  lemma MatchedEntry(s1: seq<Ptr<ConfigurationBackend>>, s2: seq<Ptr<ConfigurationBackend>>, k: nat) returns (j: nat)
    requires k < |s1| == |s2| && Pairs(s1, s2, ConfigurationBackendEqual)
    ensures j < |s2| && ConfigurationBackendEqual(s1[k], s2[j])
  {
    var p := GreedyGivesBijection(s1, s2, ConfigurationBackendEqual);
    j := p[k];
  }

  lemma MatchedSymmetric(s1: seq<Ptr<ConfigurationBackend>>, s2: seq<Ptr<ConfigurationBackend>>)
    requires |s1| == |s2| && Pairs(s1, s2, ConfigurationBackendEqual)
    ensures Pairs(s2, s1, ConfigurationBackendEqual)
  {
    ConfigurationBackendEqualIsEquivalence();
    SameIsEquivalence(ConfigurationBackendEqual);
    assert Same(Elems(s1), Elems(s2), ConfigurationBackendEqual);
  }

  lemma HostsMatch(s1: seq<Ptr<ConfigurationBackend>>, s2: seq<Ptr<ConfigurationBackend>>, host: string)
    requires |s1| == |s2| && Pairs(s2, s1, ConfigurationBackendEqual)
    requires forall i :: 0 <= i < |s1| ==> s1[i].Ref? && s1[i].v.hostname != host
    ensures forall i :: 0 <= i < |s2| && s2[i].Ref? ==> s2[i].v.hostname != host
  {
    forall i | 0 <= i < |s2| && s2[i].Ref? ensures s2[i].v.hostname != host {
      var j := MatchedEntry(s2, s1, i);
    }
  }

  /** What equals a routable configuration is routable. */
  lemma EqualToRoutable(c1: Configuration, c2: Configuration)
    requires Routable(c2) && ConfigurationEqual(Ref(c1), Ref(c2))
    ensures Routable(c1)
  {
    if c1.services.Elems? {
      var s1, s2 := c1.services.s, c2.services.s;
      assert s1 == c1.services.Seq() && s2 == c2.services.Seq();
      var p := GreedyGivesBijection(s1, s2, ConfigurationBackendEqual);
      forall i | 0 <= i < |s1|
        ensures s1[i].Ref? && s1[i].v.backend.Ref? && s1[i].v.backend.v.endpoints.Elems?
        ensures s1[i].v.hostname == s2[p[i]].v.hostname
      {
        assert ConfigurationBackendEqual(s1[i], s2[p[i]]);
      }
      assert forall i, j :: 0 <= i < j < |s1| ==> p[i] != p[j];
    }
  }

  /** Installing or keeping an equal configuration is all the same to routing: each
      host stays unknown, stays without endpoints, or keeps the same sockets. */
  lemma EqualConfigurationsRouteAlike(c1: Configuration, c2: Configuration, host: string)
    requires Routable(c1) && Routable(c2)
    requires ConfigurationEqual(Ref(c1), Ref(c2))
    ensures var r1, r2 := Route(c1, host), Route(c2, host);
            r1.NilSlice? == r2.NilSlice? && |r1.Seq()| == |r2.Seq()| && Sockets(r1) == Sockets(r2)
  {
    var s1, s2 := c1.services.Seq(), c2.services.Seq();
    if c1.services.Elems? {
      if k :| 0 <= k < |s1| && s1[k].v.hostname == host {
        var j := MatchedEntry(s1, s2, k);
        RouteAt(s1, k);
        RouteAt(s2, j);
        SameEndpointsSameSockets(s1[k].v.backend.v.endpoints, s2[j].v.backend.v.endpoints);
      } else {
        MatchedSymmetric(s1, s2);
        HostsMatch(s1, s2, host);
        RouteMissing(s1, host);
        RouteMissing(s2, host);
      }
    }
  }

  /** With a host listed twice, equal configurations can route it differently. */
  lemma DuplicateHostsBreakRouting(h: string, e: Endpoint)
    ensures var up := Ref(ConfigurationBackend(Ref(Backend("up", Nil, Elems([e]))), h));
            var down := Ref(ConfigurationBackend(Ref(Backend("down", Nil, Elems([]))), h));
            && ConfigurationEqual(Ref(Configuration(Elems([up, down]))), Ref(Configuration(Elems([down, up]))))
            && RouteIn([up, down], h) == Elems([e]) && RouteIn([down, up], h) == Elems([])
  {
    var up := Ref(ConfigurationBackend(Ref(Backend("up", Nil, Elems([e]))), h));
    var down := Ref(ConfigurationBackend(Ref(Backend("down", Nil, Elems([]))), h));
    ConfigurationBackendEqualIsEquivalence();
    PermutationIsSame([up, down], [down, up], ConfigurationBackendEqual);
  }
}
