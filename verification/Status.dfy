/** internal/ingress/status/status.go: comparing published addresses, and listing the
    endpoints that periodic cleaning keeps. */
module Status {
  import opened Go
  import opened Sets
  import opened Sorting
  import opened Types
  import opened Endpoints
  import opened Builder
  import opened Redis
  import opened RedisKeys

  datatype LoadBalancerIngress = LoadBalancerIngress(ip: string, hostname: string)

  /** lessLoadBalancerIngress: by hostname, then by IP. */
  predicate Less(a: LoadBalancerIngress, b: LoadBalancerIngress): (less: bool)
    ensures less <==> StringLess(a.hostname, b.hostname) || (a.hostname == b.hostname && StringLess(a.ip, b.ip))
  {
    StringLessLaws(a.hostname, b.hostname, a.hostname);
    if StringLess(a.hostname, b.hostname) then true
    else if StringLess(b.hostname, a.hostname) then false
    else StringLess(a.ip, b.ip)
  }

  lemma LessLaws(a: LoadBalancerIngress, b: LoadBalancerIngress, c: LoadBalancerIngress)
    ensures WeakOrderAt(Less, a, b, c)
    ensures a == b || Less(a, b) || Less(b, a)
  {
    StringLessLaws(a.hostname, b.hostname, c.hostname);
    StringLessLaws(b.hostname, a.hostname, c.hostname);
    StringLessLaws(a.hostname, c.hostname, b.hostname);
    StringLessLaws(b.hostname, c.hostname, a.hostname);
    StringLessLaws(a.ip, b.ip, c.ip);
    StringLessLaws(b.ip, a.ip, c.ip);
  }

  lemma LessIsWeakOrder()
    ensures StrictWeakOrder(Less)
  {
    forall a, b, c ensures WeakOrderAt(Less, a, b, c) {
      LessLaws(a, b, c);
    }
  }

  /** ingressSliceEqual. */
  method IngressSliceEqual(lhs: seq<LoadBalancerIngress>, rhs: seq<LoadBalancerIngress>) returns (equal: bool)
    ensures equal <==> lhs == rhs
  {
    if |lhs| != |rhs| {
      return false;
    }
    for i := 0 to |lhs|
      invariant lhs[..i] == rhs[..i]
    {
      if lhs[i].ip != rhs[i].ip {
        return false;
      }
      if lhs[i].hostname != rhs[i].hostname {
        return false;
      }
    }
    equal := true;
  }

  /** Sorting both lists and comparing them pointwise decides equality as multisets. */
  lemma SortedEqualIffSameMultiset(a: seq<LoadBalancerIngress>, b: seq<LoadBalancerIngress>)
    ensures SliceStable(a, Less) == SliceStable(b, Less) <==> multiset(a) == multiset(b)
  {
    LessIsWeakOrder();
    SliceStableSorts(a, Less);
    SliceStableSorts(b, Less);
    SortedEqualIff(SliceStable(a, Less), SliceStable(b, Less));
  }

  predicate FieldsEqual(x: LoadBalancerIngress, y: LoadBalancerIngress) { x.ip == y.ip && x.hostname == y.hostname }

  function Itself(x: LoadBalancerIngress): LoadBalancerIngress { x }

  /** The two algorithms agree: sort-and-compare answers as the greedy matching would. */
  lemma SortingAgreesWithMatching(a: seq<LoadBalancerIngress>, b: seq<LoadBalancerIngress>)
    ensures SliceStable(a, Less) == SliceStable(b, Less) <==> Same(Elems(a), Elems(b), FieldsEqual)
  {
    SortedEqualIffSameMultiset(a, b);
    assert Equivalence(FieldsEqual);
    if multiset(a) == multiset(b) {
      PermutationIsSame(a, b, FieldsEqual);
    }
    if Same(Elems(a), Elems(b), FieldsEqual) {
      MatchedListsShare(a, b, FieldsEqual, Itself);
      assert Sets.Map(Itself, a) == a && Sets.Map(Itself, b) == b;
    }
  }

  ghost predicate SortedIps(s: seq<LoadBalancerIngress>) { Sorted(s, Less) }

  lemma SortedEqualIff(a: seq<LoadBalancerIngress>, b: seq<LoadBalancerIngress>)
    requires SortedIps(a) && SortedIps(b)
    ensures a == b <==> multiset(a) == multiset(b)
  {
    if multiset(a) == multiset(b) {
      forall i, j | 0 <= i < |a| && 0 <= j < |a| && a[i] != a[j] ensures !Tied(a[i], a[j], Less) {
        LessLaws(a[i], a[j], a[i]);
      }
      SortedOrderIsUnique(a, b, Less);
    }
  }

  /** A slice of addresses that is sorted where it lies. */
  class AddressList {
    var ips: seq<LoadBalancerIngress>

    constructor (ips: seq<LoadBalancerIngress>)
      ensures this.ips == ips
    {
      this.ips := ips;
    }

    method SortStable()
      modifies this
      ensures SortedIps(ips) && multiset(ips) == multiset(old(ips))
    {
      LessIsWeakOrder();
      SliceStableSorts(ips, Less);
      ips := SliceStable(ips, Less);
    }

    /** Sorts the addresses and compares them with the sorted new ones, which may be the same
        list. */
    method NeedsUpdate(point: AddressList) returns (needed: bool)
      requires SortedIps(point.ips)
      modifies this
      ensures SortedIps(ips) && multiset(ips) == multiset(old(ips))
      ensures SortedIps(point.ips) && multiset(point.ips) == multiset(old(point.ips))
      ensures needed <==> multiset(ips) != multiset(point.ips)
    {
      SortStable();
      SortedEqualIff(ips, point.ips);
      var equal := IngressSliceEqual(ips, point.ips);
      needed := !equal;
    }
  }

  /** The lists hold these addresses, in any order. */
  ghost predicate Hold(lists: seq<AddressList>, contents: seq<multiset<LoadBalancerIngress>>)
    reads lists
  {
    |lists| == |contents| && forall i :: 0 <= i < |lists| ==> multiset(lists[i].ips) == contents[i]
  }

  /** The first `n` lists are sorted. */
  ghost predicate FirstSorted(lists: seq<AddressList>, n: nat)
    requires n <= |lists|
    reads lists
  {
    forall k :: 0 <= k < n ==> SortedIps(lists[k].ips)
  }

  /** One pass of the loop in updateStatus. */
  method CompareOne(published: seq<AddressList>, i: nat, newIngressPoint: AddressList,
                    ghost contents: seq<multiset<LoadBalancerIngress>>, ghost point: multiset<LoadBalancerIngress>)
    returns (needed: bool)
    requires i < |published| && Hold(published, contents) && FirstSorted(published, i)
    requires SortedIps(newIngressPoint.ips) && multiset(newIngressPoint.ips) == point
    modifies published[i]
    ensures Hold(published, contents) && FirstSorted(published, i + 1)
    ensures SortedIps(newIngressPoint.ips) && multiset(newIngressPoint.ips) == point
    ensures needed <==> contents[i] != point
  {
    needed := published[i].NeedsUpdate(newIngressPoint);
  }

  /** The positions below `n` at which the contents differ from the new addresses, in order. */
  ghost predicate Differing(batch: seq<nat>, contents: seq<multiset<LoadBalancerIngress>>,
                            point: multiset<LoadBalancerIngress>, n: nat)
    requires n <= |contents|
  {
    && (forall k: nat :: k in batch <==> k < n && contents[k] != point)
    && (forall i, j :: 0 <= i < j < |batch| ==> batch[i] < batch[j])
  }

  lemma DifferingStep(batch: seq<nat>, contents: seq<multiset<LoadBalancerIngress>>,
                      point: multiset<LoadBalancerIngress>, n: nat)
    requires n < |contents| && Differing(batch, contents, point, n)
    ensures contents[n] == point ==> Differing(batch, contents, point, n + 1)
    ensures contents[n] != point ==> Differing(batch + [n], contents, point, n + 1)
  {
    assert forall i :: 0 <= i < |batch| ==> batch[i] in batch;
  }

  /** updateStatus: exactly the ingresses whose published addresses differ from the new ones
      are written again. The lists, which may be shared, are sorted where they lie. */
  method UpdateStatus(published: seq<AddressList>, newIngressPoint: AddressList,
                      ghost contents: seq<multiset<LoadBalancerIngress>>, ghost point: multiset<LoadBalancerIngress>)
    returns (batch: seq<nat>)
    requires Hold(published, contents) && multiset(newIngressPoint.ips) == point
    modifies published, newIngressPoint
    ensures Hold(published, contents) && multiset(newIngressPoint.ips) == point
    ensures SortedIps(newIngressPoint.ips) && FirstSorted(published, |published|)
    ensures Differing(batch, contents, point, |published|)
  {
    batch := [];
    newIngressPoint.SortStable();
    for i := 0 to |published|
      invariant SortedIps(newIngressPoint.ips) && multiset(newIngressPoint.ips) == point
      invariant Hold(published, contents) && FirstSorted(published, i)
      invariant Differing(batch, contents, point, i)
    {
      DifferingStep(batch, contents, point, i);
      var needed := CompareOne(published, i, newIngressPoint, contents, point);
      if !needed {
        continue;
      }
      batch := batch + [i];
    }
  }

  // ---- Periodic cleaning -----------------------------------------------------

  /** `ip` is an address of these subsets. */
  ghost predicate HasAddress(subsets: seq<EndpointSubset>, ip: string) {
    exists i, k :: 0 <= i < |subsets| && 0 <= k < |subsets[i].addresses| && subsets[i].addresses[k].ip == ip
  }

  /** The list of endpoints names every address behind every rule. */
  ghost predicate ListsActive(snap: Snapshot, rules: seq<HostRule>, endpoints: seq<string>) {
    forall i :: 0 <= i < |rules| ==>
      && rules[i].target.SvcKey() in snap.endpoints
      && forall ip :: HasAddress(snap.endpoints[rules[i].target.SvcKey()].subsets, ip) ==> ip in endpoints
  }

  /** An address the list may name. */
  ghost predicate IsActive(snap: Snapshot, rules: seq<HostRule>, ip: string) {
    exists i :: 0 <= i < |rules| && rules[i].target.SvcKey() in snap.endpoints &&
                HasAddress(snap.endpoints[rules[i].target.SvcKey()].subsets, ip)
  }

  lemma StillActive(snap: Snapshot, rules: seq<HostRule>, r: HostRule, ip: string)
    requires IsActive(snap, rules, ip)
    ensures IsActive(snap, rules + [r], ip)
  {
    var i :| 0 <= i < |rules| && rules[i].target.SvcKey() in snap.endpoints &&
             HasAddress(snap.endpoints[rules[i].target.SvcKey()].subsets, ip);
    assert (rules + [r])[i] == rules[i];
  }

  /** The addresses of the subsets, in order. */
  method AddAddresses(subsets: seq<EndpointSubset>, endpoints: seq<string>) returns (longer: seq<string>)
    ensures forall ip :: ip in longer <==> ip in endpoints || HasAddress(subsets, ip)
  {
    longer := endpoints;
    for i := 0 to |subsets|
      invariant forall ip :: ip in longer <==> ip in endpoints || HasAddress(subsets[..i], ip)
    {
      ghost var before := longer;
      for k := 0 to |subsets[i].addresses|
        invariant forall ip :: ip in longer <==>
                    ip in before || exists j :: 0 <= j < k && subsets[i].addresses[j].ip == ip
      {
        longer := longer + [subsets[i].addresses[k].ip];
      }
      forall ip ensures ip in longer <==> ip in endpoints || HasAddress(subsets[..i + 1], ip) {
        HasAddressStep(subsets, i, ip);
      }
    }
    assert subsets[..|subsets|] == subsets;
  }

  lemma HasAddressStep(subsets: seq<EndpointSubset>, i: nat, ip: string)
    requires i < |subsets|
    ensures HasAddress(subsets[..i + 1], ip) <==>
              || HasAddress(subsets[..i], ip)
              || exists j :: 0 <= j < |subsets[i].addresses| && subsets[i].addresses[j].ip == ip
  {
    var more := subsets[..i + 1];
    if HasAddress(subsets[..i], ip) {
      var a, k :| 0 <= a < i && 0 <= k < |subsets[..i][a].addresses| && subsets[..i][a].addresses[k].ip == ip;
      assert more[a] == subsets[..i][a];
    }
    if j :| 0 <= j < |subsets[i].addresses| && subsets[i].addresses[j].ip == ip {
      assert more[i].addresses[j].ip == ip;
    }
    if HasAddress(more, ip) {
      var a, k :| 0 <= a < i + 1 && 0 <= k < |more[a].addresses| && more[a].addresses[k].ip == ip;
      if a < i {
        assert subsets[..i][a] == more[a];
      }
    }
  }

  /** getActiveEndpoints: fails when a rule's service has no endpoints object, and otherwise
      lists every address behind every rule. */
  method GetActiveEndpoints(snap: Snapshot, ings: seq<Ingress>) returns (endpoints: seq<string>, err: bool)
    requires AllUsable(ings)
    ensures !err ==> ActiveList(snap, Rules(ings), endpoints)
    ensures err ==> exists i :: 0 <= i < |Rules(ings)| && Rules(ings)[i].target.SvcKey() !in snap.endpoints
  {
    endpoints, err := [], false;
    for i := 0 to |ings|
      invariant ListsActive(snap, Rules(ings[..i]), endpoints)
      invariant forall ip :: ip in endpoints ==> IsActive(snap, Rules(ings[..i]), ip)
    {
      var ing := ings[i];
      ghost var before := Rules(ings[..i]);
      assert ings[..i + 1][..i] == ings[..i];
      for j := 0 to |ing.rules|
        invariant ListsActive(snap, AppendRules(before, ing, j), endpoints)
        invariant forall ip :: ip in endpoints ==> IsActive(snap, AppendRules(before, ing, j), ip)
      {
        ghost var rules, shorter := AppendRules(before, ing, j), endpoints;
        var svcKey := RuleOf(ing, j).target.SvcKey();
        if svcKey !in snap.endpoints {
          RuleInside(ings, i, j);
          return endpoints, true;
        }
        endpoints := AddAddresses(snap.endpoints[svcKey].subsets, endpoints);
        forall ip | ip in endpoints ensures IsActive(snap, rules + [RuleOf(ing, j)], ip) {
          if ip in shorter {
            StillActive(snap, rules, RuleOf(ing, j), ip);
          } else {
            assert (rules + [RuleOf(ing, j)])[|rules|] == RuleOf(ing, j);
          }
        }
      }
    }
    assert ings[..|ings|] == ings;
  }

  lemma {:induction false} EndpointsHaveAddresses(snap: Snapshot, svc: Service, k: nat, port: string, e: Endpoint)
    requires k <= |svc.ports| && e in EndpointsFrom(snap, svc, k, port)
    ensures var key := MetaNamespaceKey(svc.namespace, svc.name);
            key in snap.endpoints && HasAddress(snap.endpoints[key].subsets, e.address)
    decreases |svc.ports| - k
  {
    if k < |svc.ports| {
      if MatchesPort(svc.ports[k], port) {
        var subsets := snap.endpoints[MetaNamespaceKey(svc.namespace, svc.name)].subsets;
        EndpointsExact(subsets, svc.ports[k].name, TCP);
        OfferedHasAddress(subsets, svc.ports[k].name, TCP, e);
      } else {
        EndpointsHaveAddresses(snap, svc, k + 1, port, e);
      }
    }
  }

  lemma OfferedHasAddress(subsets: seq<EndpointSubset>, portName: string, proto: string, e: Endpoint)
    requires Offers(subsets, portName, proto, e)
    ensures HasAddress(subsets, e.address)
  {
    var p :| OfferedAt(subsets, p, portName, proto, e);
    assert subsets[p.subset].addresses[p.address].ip == e.address;
  }

  /** The list as getActiveEndpoints returns it: the addresses behind the rules and no other. */
  ghost predicate ActiveList(snap: Snapshot, rules: seq<HostRule>, endpoints: seq<string>) {
    ListsActive(snap, rules, endpoints) && forall ip :: ip in endpoints ==> IsActive(snap, rules, ip)
  }

  /** The host is routed to an external name: its service is one, the port is a positive
      number, and the name resolves. */
  ghost predicate RoutedToName(snap: Snapshot, rules: seq<HostRule>, host: string, name: string) {
    && host != "" && FirstFor(rules, host) < |rules|
    && var t := rules[RoutedBy(rules, host)].target;
       && t.SvcKey() in snap.services && snap.services[t.SvcKey()].kind == ExternalName(name)
       && Atoi(t.port.String()).Ref? && Atoi(t.port.String()).v > 0 && name in snap.resolvable
  }

  /** Every name that a host is routed to is also the address of an active endpoint. */
  ghost predicate NamesAreActive(snap: Snapshot, rules: seq<HostRule>) {
    forall host, name :: RoutedToName(snap, rules, host, name) ==> IsActive(snap, rules, name)
  }

  lemma NameIsRouted(snap: Snapshot, rules: seq<HostRule>, c: Configuration, host: string, name: string)
    requires ConfigurationOf(c, ServerMap(snap, rules)) && RoutedToName(snap, rules, host, name)
    ensures Routable(c) && exists e :: e in Route(c, host).Seq() && e.address == name
  {
    TotalLookup(snap, rules, c, host);
    var t := rules[RoutedBy(rules, host)].target;
    var e := Endpoint(name, Itoa(Atoi(t.port.String()).v), Nil);
    assert ServiceEndpoints(snap, t.SvcKey(), t.port.String()) == [e];
    assert e in Route(c, host).Seq();
  }

  /** What a host is routed to is listed, unless it is an external name. */
  lemma RoutedIsListed(snap: Snapshot, rules: seq<HostRule>, c: Configuration, endpoints: seq<string>, host: string,
                       e: Endpoint)
    requires ServicesKeyed(snap) && ListsActive(snap, rules, endpoints) && ConfigurationOf(c, ServerMap(snap, rules))
    requires Routable(c) && e in Route(c, host).Seq()
    ensures e.address in endpoints || RoutedToName(snap, rules, host, e.address)
  {
    TotalLookup(snap, rules, c, host);
    var t := rules[RoutedBy(rules, host)].target;
    assert t.SvcKey() in snap.services;
    var svc := snap.services[t.SvcKey()];
    if svc.kind.ClusterIP? {
      EndpointsHaveAddresses(snap, svc, 0, t.port.String(), e);
    }
  }

  /** On one snapshot, the list that periodic cleaning keeps holds every address that the
      configuration routes any host to, exactly when no host is routed to an external name
      that is not an active address too. */
  lemma RoutableAddressesAreListedIff(snap: Snapshot, rules: seq<HostRule>, c: Configuration, endpoints: seq<string>)
    requires ServicesKeyed(snap) && ActiveList(snap, rules, endpoints) && ConfigurationOf(c, ServerMap(snap, rules))
    ensures Routable(c)
    ensures (forall host, e :: e in Route(c, host).Seq() ==> e.address in endpoints) <==> NamesAreActive(snap, rules)
  {
    TotalLookup(snap, rules, c, "");
    if forall host, e :: e in Route(c, host).Seq() ==> e.address in endpoints {
      forall host, name | RoutedToName(snap, rules, host, name) ensures IsActive(snap, rules, name) {
        NameIsRouted(snap, rules, c, host, name);
      }
    }
    if NamesAreActive(snap, rules) {
      forall host, e | e in Route(c, host).Seq() ensures e.address in endpoints {
        RoutedIsListed(snap, rules, c, endpoints, host, e);
        if RoutedToName(snap, rules, host, e.address) {
          ListsEveryActive(snap, rules, endpoints, e.address);
        }
      }
    }
  }

  lemma ListsEveryActive(snap: Snapshot, rules: seq<HostRule>, endpoints: seq<string>, ip: string)
    requires ListsActive(snap, rules, endpoints) && IsActive(snap, rules, ip)
    ensures ip in endpoints
  {
  }

  /** Without ExternalName services nothing can go wrong. */
  lemma NoExternalNamesNeeded(snap: Snapshot, rules: seq<HostRule>)
    requires forall i :: 0 <= i < |rules| && rules[i].target.SvcKey() in snap.services ==>
               snap.services[rules[i].target.SvcKey()].kind.ClusterIP?
    ensures NamesAreActive(snap, rules)
  {
  }

  /** No session in any database that is bound to a routable address is stale. */
  ghost predicate KeepsRoutableSessions(c: Configuration, endpoints: seq<string>, prefix: string)
    requires Routable(c)
  {
    forall db: Database, now, key, host, e ::
      e in Route(c, host).Seq() && key in db && db[key].endpoint == e.address ==>
          !Stale(prefix, db, now, endpoints, key)
  }

  /** So periodic cleaning drops no session bound to a routable address, under exactly the
      same condition. */
  lemma PeriodicCleaningKeepsRoutableSessionsIff(snap: Snapshot, rules: seq<HostRule>, c: Configuration,
                                                 endpoints: seq<string>, prefix: string)
    requires ServicesKeyed(snap) && ActiveList(snap, rules, endpoints) && ConfigurationOf(c, ServerMap(snap, rules))
    ensures Routable(c) && (KeepsRoutableSessions(c, endpoints, prefix) <==> NamesAreActive(snap, rules))
  {
    RoutableAddressesAreListedIff(snap, rules, c, endpoints);
    if host, e :| e in Route(c, host).Seq() && e.address !in endpoints {
      var db, key := StaleSession(prefix, endpoints, e.address);
      assert db[key].endpoint == e.address;
      assert !KeepsRoutableSessions(c, endpoints, prefix);
    }
  }

  /** A session bound to an address that is not listed. */
  lemma StaleSession(prefix: string, endpoints: seq<string>, address: string) returns (db: Database, key: string)
    requires address !in endpoints
    ensures key in db && db[key].endpoint == address && Stale(prefix, db, 0, endpoints, key)
  {
    key := Namespace(prefix);
    db := map[key := Entry(address, HOUR)];
    assert OccursAt(key, Namespace(prefix), 0);
  }

  /** An ExternalName service breaks it: a store in which a session bound to a routable
      external name is removed by the next periodic clean. */
  lemma ExternalNamesAreNotListed(prefix: string)
    returns (snap: Snapshot, rules: seq<HostRule>, c: Configuration, host: string, e: Endpoint, db: Database,
             key: string)
    ensures ServicesKeyed(snap) && ActiveList(snap, rules, []) && ConfigurationOf(c, ServerMap(snap, rules))
    ensures |rules| == 1 && rules[0].target.SvcKey() in snap.services
    ensures snap.services[rules[0].target.SvcKey()].kind == ExternalName(e.address)
    ensures Routable(c) && e in Route(c, host).Seq()
    ensures key in db && db[key].endpoint == e.address && Stale(prefix, db, 0, [], key)
  {
    var t, name := Target("ns", "svc", IntVal(80)), "db.example.com";
    snap, rules := OneExternal(t, name), [HostRule("shop", t)];
    host, e := "shop", Endpoint(name, Itoa(80), Nil);
    ExternalStore(t, name, rules);
    ExternalServes(t, name);
    c := OneHost(snap, rules, host);
    db, key := StaleSession(prefix, [], name);
  }

  /** A store with an ExternalName service only, and an Endpoints object without addresses. */
  function OneExternal(t: Target, name: string): Snapshot {
    Snapshot(map[t.SvcKey() := Service(t.namespace, t.service, ExternalName(name), [])],
             map[t.SvcKey() := EndpointsObject("", [])], {name})
  }

  lemma ExternalStore(t: Target, name: string, rules: seq<HostRule>)
    requires t.namespace != "" && |rules| == 1 && rules[0].target == t
    ensures ServicesKeyed(OneExternal(t, name)) && ActiveList(OneExternal(t, name), rules, [])
  {
    assert MetaNamespaceKey(t.namespace, t.service) == t.SvcKey();
  }

  lemma ExternalServes(t: Target, name: string)
    requires t.port == IntVal(80)
    ensures ServiceEndpoints(OneExternal(t, name), t.SvcKey(), t.port.String()) == [Endpoint(name, Itoa(80), Nil)]
  {
    AtoiOfItoa(80);
  }

  /** The configuration of a single rule. */
  lemma OneHost(snap: Snapshot, rules: seq<HostRule>, host: string) returns (c: Configuration)
    requires |rules| == 1 && host != "" && rules[0].host == host
    ensures ConfigurationOf(c, ServerMap(snap, rules)) && Routable(c)
    ensures var t := rules[0].target;
            Route(c, host) == Elems(ServiceEndpoints(snap, t.SvcKey(), t.port.String()))
  {
    var servers := ServerMap(snap, rules);
    forall h ensures h in servers <==> h == host {
      ServerOfHost(snap, rules, h);
    }
    c := Configuration(Elems([Ref(ConfigurationBackend(servers[host], host))]));
    assert c.services.s[0].v.hostname == host;
    TotalLookup(snap, rules, c, host);
  }
}
