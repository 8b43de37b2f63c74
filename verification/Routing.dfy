/** What a generated configuration holds, read off the ingresses, the services and the Endpoints
    objects themselves: internal/ingress/controller/controller.go, util.go and endpoints.go
    together. */
module Routing {
  import opened Go
  import opened Types
  import opened Builder
  import opened Ties

  /** The text of a port. */
  function PortText(port: IntOrString): string {
    match port case IntVal(n) => Itoa(n) case StrVal(text) => text
  }

  /** The first path of a rule. */
  function FirstPath(ing: Ingress, j: nat): Path
    requires Usable(ing) && j < |ing.rules|
  {
    ing.rules[j].http.v[0]
  }

  /** The upstream name of a rule. */
  function NameOf(ing: Ingress, j: nat): string
    requires Usable(ing) && j < |ing.rules|
  {
    ing.namespace + "-" + FirstPath(ing, j).serviceName + "-" + PortText(FirstPath(ing, j).servicePort)
  }

  ghost predicate HasRule(ings: seq<Ingress>, host: string) {
    exists i, j :: 0 <= i < |ings| && 0 <= j < |ings[i].rules| && ings[i].rules[j].host == host
  }

  /** Rule `j` of ingress `i` is the first one for the host. */
  ghost predicate FirstRule(ings: seq<Ingress>, host: string, i: nat, j: nat) {
    && i < |ings| && j < |ings[i].rules| && ings[i].rules[j].host == host
    && (forall k :: 0 <= k < j ==> ings[i].rules[k].host != host)
    && (forall k, l :: 0 <= k < i && 0 <= l < |ings[k].rules| ==> ings[k].rules[l].host != host)
  }

  /** Rule `j` of ingress `i` is the last one with the upstream name. */
  ghost predicate LastRule(ings: seq<Ingress>, name: string, i: nat, j: nat)
    requires AllUsable(ings)
  {
    && i < |ings| && j < |ings[i].rules| && NameOf(ings[i], j) == name
    && (forall k :: j < k < |ings[i].rules| ==> NameOf(ings[i], k) != name)
    && (forall k, l :: i < k < |ings| && 0 <= l < |ings[k].rules| ==> NameOf(ings[k], l) != name)
  }

  /** The endpoints have exactly the sockets that the store serves for the first path of a rule,
      each once. */
  ghost predicate Serves(snap: Snapshot, ing: Ingress, j: nat, endpoints: Slice<Endpoint>)
    requires Usable(ing) && j < |ing.rules|
  {
    var p := FirstPath(ing, j);
    forall address, port ::
      Sockets(endpoints)[(address, port)] ==
      Bit(ServesSocket(snap, ing.namespace + "/" + p.serviceName, PortText(p.servicePort), address, port))
  }

  /** The rule a host is routed by: the last one with the upstream name of the host's first rule. */
  ghost predicate RoutingRule(ings: seq<Ingress>, host: string, m: nat, l: nat)
    requires AllUsable(ings)
  {
    exists i: nat, j: nat :: FirstRule(ings, host, i, j) && LastRule(ings, NameOf(ings[i], j), m, l)
  }

  /** The backend is made for the host's routing rule. */
  ghost predicate BackendOf(snap: Snapshot, ings: seq<Ingress>, host: string, b: Backend)
    requires AllUsable(ings)
  {
    exists m: nat, l: nat ::
      && RoutingRule(ings, host, m, l) && b.name == NameOf(ings[m], l)
      && b.endpoints.Elems? && Serves(snap, ings[m], l, b.endpoints)
      && var key := ings[m].namespace + "/" + FirstPath(ings[m], l).serviceName;
         b.service == if key in snap.services then Ref(snap.services[key]) else Nil
  }

  lemma RuleIs(ing: Ingress, j: nat)
    requires Usable(ing) && j < |ing.rules|
    ensures var t := RuleOf(ing, j).target;
            && t.Upstream() == NameOf(ing, j) && t.port.String() == PortText(FirstPath(ing, j).servicePort)
            && t.SvcKey() == ing.namespace + "/" + FirstPath(ing, j).serviceName
  {
  }

  lemma BackendServes(snap: Snapshot, ing: Ingress, j: nat)
    requires Usable(ing) && j < |ing.rules|
    ensures Serves(snap, ing, j, BackendFor(snap, RuleOf(ing, j).target).endpoints)
  {
    var t := RuleOf(ing, j).target;
    RuleIs(ing, j);
    forall address, port
      ensures Sockets(BackendFor(snap, t).endpoints)[(address, port)] ==
              Bit(ServesSocket(snap, t.SvcKey(), t.port.String(), address, port))
    {
      ServiceEndpointsExact(snap, t.SvcKey(), t.port.String(), address, port);
    }
  }

  lemma UsesIff(ing: Ingress, name: string)
    requires Usable(ing)
    ensures Uses(ing, name) <==> exists j :: 0 <= j < |ing.rules| && NameOf(ing, j) == name
  {
    forall j | 0 <= j < |ing.rules| ensures RuleOf(ing, j).target.Upstream() == NameOf(ing, j) {
      RuleIs(ing, j);
    }
  }

  /** The server of a host with a rule. */
  lemma ServerIsBackendOf(snap: Snapshot, ings: seq<Ingress>, host: string)
    requires AllUsable(ings) && host != "" && HasRule(ings, host)
    ensures host in ServerMap(snap, Rules(ings)) && ServerMap(snap, Rules(ings))[host].Ref?
    ensures BackendOf(snap, ings, host, ServerMap(snap, Rules(ings))[host].v)
  {
    assert exists k :: 0 <= k < |ings| && Names(ings[k], host);
    var i := FirstNaming(ings, host);
    var name := FirstTarget(ings[i], host).Upstream();
    assert Uses(ings[i], name);
    var m := LastUsing(ings, name);
    var l := LastIn(ings[m], name, |ings[m].rules|);
    FirstRuleAt(ings, host, i);
    LastRuleAt(ings, name, m);
    assert RoutingRule(ings, host, m, l);
    HostBackend(snap, ings, i, m, host);
    RuleIs(ings[m], l);
    BackendServes(snap, ings[m], l);
  }

  lemma FirstRuleAt(ings: seq<Ingress>, host: string, i: nat)
    requires AllUsable(ings) && i < |ings| && Names(ings[i], host)
    requires forall k :: 0 <= k < i ==> !Names(ings[k], host)
    ensures FirstRule(ings, host, i, FirstIn(ings[i], host))
    ensures NameOf(ings[i], FirstIn(ings[i], host)) == FirstTarget(ings[i], host).Upstream()
  {
    RuleIs(ings[i], FirstIn(ings[i], host));
  }

  lemma LastRuleAt(ings: seq<Ingress>, name: string, m: nat)
    requires AllUsable(ings) && m < |ings| && Uses(ings[m], name) && forall k :: m < k < |ings| ==> !Uses(ings[k], name)
    ensures LastRule(ings, name, m, LastIn(ings[m], name, |ings[m].rules|))
  {
    var l := LastIn(ings[m], name, |ings[m].rules|);
    forall k | 0 <= k < |ings[m].rules| ensures RuleOf(ings[m], k).target.Upstream() == NameOf(ings[m], k) {
      RuleIs(ings[m], k);
    }
    forall k, j | m < k < |ings| && 0 <= j < |ings[k].rules| ensures NameOf(ings[k], j) != name {
      UsesIff(ings[k], name);
    }
  }

  /** What getConfiguration returns: each host that is not empty and has a rule is listed once, no
      other host is, and its backend is made for its routing rule: it has the rule's upstream name,
      the service of the rule's first path, and exactly the sockets that the store serves for it. */
  lemma ConfigurationExact(snap: Snapshot, ings: seq<Ingress>, c: Configuration, host: string)
    requires AllUsable(ings) && ConfigurationOf(c, ServerMap(snap, Rules(ings)))
    ensures Routable(c)
    ensures (exists i :: 0 <= i < |c.services.Seq()| && c.services.Seq()[i].v.hostname == host) <==>
              host != "" && HasRule(ings, host)
    ensures forall i :: 0 <= i < |c.services.Seq()| && c.services.Seq()[i].v.hostname == host ==>
              BackendOf(snap, ings, host, c.services.Seq()[i].v.backend.v)
  {
    ConfigurationMeetsSpec(snap, Rules(ings), c, host);
    HasRuleIff(ings, host);
    forall i | 0 <= i < |c.services.Seq()| && c.services.Seq()[i].v.hostname == host
      ensures BackendOf(snap, ings, host, c.services.Seq()[i].v.backend.v)
    {
      ServerIsBackendOf(snap, ings, host);
      EntryIsServer(c, ServerMap(snap, Rules(ings)), i);
    }
  }

  lemma EntryIsServer(c: Configuration, servers: map<string, Ptr<Backend>>, i: nat)
    requires ConfigurationOf(c, servers) && i < |c.services.Seq()|
    ensures var entry := c.services.Seq()[i];
            entry.Ref? && entry.v.hostname in servers && entry.v.backend == servers[entry.v.hostname]
  {
  }

  lemma HasRuleIff(ings: seq<Ingress>, host: string)
    requires AllUsable(ings)
    ensures HasRule(ings, host) <==> FirstFor(Rules(ings), host) < |Rules(ings)|
  {
    NamedIff(ings, host);
    assert HasRule(ings, host) <==> exists i :: 0 <= i < |ings| && Names(ings[i], host);
  }

  ghost predicate RoutedAsAsked(snap: Snapshot, ings: seq<Ingress>, host: string, endpoints: Slice<Endpoint>)
    requires AllUsable(ings)
  {
    exists m: nat, l: nat :: RoutingRule(ings, host, m, l) && Serves(snap, ings[m], l, endpoints)
  }

  /** So a lookup finds nothing exactly when no rule is for the host, and otherwise the sockets of
      the routing rule's first path. */
  lemma LookupExact(snap: Snapshot, ings: seq<Ingress>, c: Configuration, host: string)
    requires AllUsable(ings) && ConfigurationOf(c, ServerMap(snap, Rules(ings)))
    ensures Routable(c) && (Route(c, host).NilSlice? <==> host == "" || !HasRule(ings, host))
    ensures Route(c, host).Elems? ==> RoutedAsAsked(snap, ings, host, Route(c, host))
  {
    ConfigurationExact(snap, ings, c, host);
    var s := c.services.Seq();
    if i :| 0 <= i < |s| && s[i].v.hostname == host {
      RouteAt(s, i);
    } else {
      RouteMissing(s, host);
    }
  }

  // ---- Later paths -----------------------------------------------------------

  /** The same ingress but for the paths behind the first of each rule. */
  ghost predicate SameFirstPaths(a: Ingress, b: Ingress)
    requires Usable(a) && Usable(b)
  {
    && a.namespace == b.namespace && |a.rules| == |b.rules|
    && forall j :: 0 <= j < |a.rules| ==> a.rules[j].host == b.rules[j].host && FirstPath(a, j) == FirstPath(b, j)
  }

  lemma {:induction false} SameAppended(c: seq<HostRule>, a: Ingress, b: Ingress, n: nat)
    requires Usable(a) && Usable(b) && SameFirstPaths(a, b) && n <= |a.rules|
    ensures AppendRules(c, a, n) == AppendRules(c, b, n)
  {
    if n > 0 {
      SameAppended(c, a, b, n - 1);
      assert FirstPath(a, n - 1) == FirstPath(b, n - 1);
    }
  }

  /** Paths behind the first of their rule do not show: other such paths give the same
      configurations. */
  lemma LaterPathsDoNotShow(snap: Snapshot, a: seq<Ingress>, b: seq<Ingress>)
    requires AllUsable(a) && AllUsable(b) && |a| == |b| && forall i :: 0 <= i < |a| ==> SameFirstPaths(a[i], b[i])
    ensures ServerMap(snap, Rules(a)) == ServerMap(snap, Rules(b))
  {
    SameRules(a, b);
  }

  lemma {:induction false} SameRules(a: seq<Ingress>, b: seq<Ingress>)
    requires AllUsable(a) && AllUsable(b) && |a| == |b| && forall i :: 0 <= i < |a| ==> SameFirstPaths(a[i], b[i])
    ensures Rules(a) == Rules(b)
  {
    if a != [] {
      var n := |a| - 1;
      SameRules(a[..n], b[..n]);
      SameAppended(Rules(a[..n]), a[n], b[n], |a[n].rules|);
    }
  }
}
