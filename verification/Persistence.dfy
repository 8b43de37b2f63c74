/** Sticky sessions with the lists that the code passes to Clean: the addresses of a
    configuration when it is installed (internal/ingress/controller/wls.go), and the active
    endpoints now and then (internal/ingress/status/status.go). A session persists while its
    address stays routable. */
module Persistence {
  import opened Go
  import opened Types
  import opened Builder
  import opened Status
  import opened Sessions
  import opened Redis
  import opened RedisKeys
  import Controller

  type Table = map<string, seq<Endpoint>>

  /** The table of a controller answers as its configuration does. */
  ghost predicate Tabulates(table: Table, c: Configuration)
    requires Routable(c)
  {
    forall host :: if host in table then Route(c, host) == Elems(table[host]) else Route(c, host) == NilSlice
  }

  /** Some host is routed to the address. */
  ghost predicate TableRoutes(table: Table, address: string) {
    exists host, i :: host in table && 0 <= i < |table[host]| && table[host][i].address == address
  }

  /** The address is one of the configuration exactly when some host is routed to it. */
  lemma AddressesAreRouted(table: Table, c: Configuration, address: string)
    requires Routable(c) && Tabulates(table, c)
    ensures Controller.Routes(c, address) <==> TableRoutes(table, address)
  {
    var s := c.services.Seq();
    if Controller.Routes(c, address) {
      var i, j :| 0 <= i < |s| && 0 <= j < |s[i].v.backend.v.endpoints.s| &&
                  s[i].v.backend.v.endpoints.s[j].address == address;
      RouteAt(s, i);
      assert table[s[i].v.hostname][j].address == address;
    }
    if TableRoutes(table, address) {
      var host, j :| host in table && 0 <= j < |table[host]| && table[host][j].address == address;
      EntryOfHost(s, host);
      var i :| 0 <= i < |s| && s[i].v.hostname == host;
      RouteAt(s, i);
      assert s[i].v.backend.v.endpoints.s[j].address == address;
    }
  }

  /** A host with endpoints has an entry. */
  lemma EntryOfHost(s: seq<Ptr<ConfigurationBackend>>, host: string)
    requires forall i :: 0 <= i < |s| ==> s[i].Ref? && s[i].v.backend.Ref?
    requires RouteIn(s, host).Elems?
    ensures exists i :: 0 <= i < |s| && s[i].v.hostname == host
  {
    if forall i :: 0 <= i < |s| ==> s[i].v.hostname != host {
      RouteMissing(s, host);
    }
  }

  // ---- Where the lists come from ---------------------------------------------

  /** A clean is run when a configuration is installed, or periodically. */
  datatype Source = OnUpdate(c: Configuration) | Periodic(snap: Snapshot, rules: seq<HostRule>)

  /** The list that the code passes to Clean at a controller with this table. */
  ghost predicate ListFrom(src: Source, table: Table, listed: seq<string>) {
    match src
    case OnUpdate(c) => Routable(c) && Tabulates(table, c) && forall a :: a in listed <==> Controller.Routes(c, a)
    case Periodic(snap, rules) => ServicesKeyed(snap) && ActiveList(snap, rules, listed)
  }

  /** The rules route some host to the address. */
  ghost predicate RulesRoute(snap: Snapshot, rules: seq<HostRule>, address: string) {
    exists host, e :: RouteOf(snap, rules, host, e) && e.address == address
  }

  ghost predicate RouteOf(snap: Snapshot, rules: seq<HostRule>, host: string, e: Endpoint) {
    && host != "" && FirstFor(rules, host) < |rules|
    && var t := rules[RoutedBy(rules, host)].target; e in ServiceEndpoints(snap, t.SvcKey(), t.port.String())
  }

  /** The address is routable where the list comes from: at the controller, or by the store it
      reads, whose routed external names are active addresses. */
  ghost predicate StaysRoutable(src: Source, table: Table, address: string) {
    match src
    case OnUpdate(_) => TableRoutes(table, address)
    case Periodic(snap, rules) => NamesAreActive(snap, rules) && RulesRoute(snap, rules, address)
  }

  /** Both lists of the code hold the routable addresses; the first holds no other. */
  lemma RoutableIsListed(src: Source, table: Table, listed: seq<string>, address: string)
    requires ListFrom(src, table, listed)
    ensures StaysRoutable(src, table, address) ==> address in listed
    ensures src.OnUpdate? && address in listed ==> StaysRoutable(src, table, address)
  {
    match src
    case OnUpdate(c) => AddressesAreRouted(table, c, address);
    case Periodic(snap, rules) =>
      if StaysRoutable(src, table, address) {
        var host, e :| RouteOf(snap, rules, host, e) && e.address == address;
        var c := ConfigurationExists(ServerMap(snap, rules));
        RoutableAddressesAreListedIff(snap, rules, c, listed);
        TotalLookup(snap, rules, c, host);
        assert e in Route(c, host).Seq();
      }
  }

  // ---- Persistence -----------------------------------------------------------

  /** A clean that starts here has its list from the code, and the address is routable there. */
  ghost predicate CleansRoutably(s: System, step: Step, address: string) {
    step.Scan? && step.c in s.controllers ==>
      exists src :: ListFrom(src, s.controllers[step.c].table, step.listed) &&
                    StaysRoutable(src, s.controllers[step.c].table, address)
  }

  /** The session is used within its hour, and its lookups and URLs do not fail. */
  ghost predicate Used(prefix: string, s: System, step: Step, k: string)
    requires k in s.touched
  {
    match step
    case Tick(d) => s.now + d < s.touched[k] + HOUR
    case Find(_, _, _, cookie, ok) => NamespacedKey(prefix, cookie) == k ==> ok
    case Send(_, id, urlOk) => id in s.started && s.started[id] == k ==> urlOk
    case _ => true
  }

  ghost predicate RoutableRun(prefix: string, s: System, steps: seq<Step>, k: string, address: string)
    requires IsRun(prefix, s, steps)
    decreases |steps|
  {
    steps == [] || (
      && k in s.touched && Used(prefix, s, steps[0], k) && CleansRoutably(s, steps[0], address)
      && RoutableRun(prefix, Next(prefix, s, steps[0]), steps[1..], k, address))
  }

  lemma RoutableStepIsAttentive(prefix: string, s: System, step: Step, k: string)
    requires Enabled(prefix, s, step) && k in s.bound && k in s.touched
    requires Used(prefix, s, step, k) && CleansRoutably(s, step, s.bound[k])
    ensures Attentive(prefix, s, step, k)
  {
    if step.Scan? {
      var table := s.controllers[step.c].table;
      var src :| ListFrom(src, table, step.listed) && StaysRoutable(src, table, s.bound[k]);
      RoutableIsListed(src, table, step.listed, s.bound[k]);
    }
  }

  lemma {:induction false} RoutableRunIsAttentive(prefix: string, s: System, steps: seq<Step>, k: string,
                                                  address: string)
    requires Inv(s) && IsRun(prefix, s, steps) && k in s.bound && s.bound[k] == address
    requires RoutableRun(prefix, s, steps, k, address)
    ensures AttentiveRun(prefix, s, steps, k)
    decreases |steps|
  {
    if steps != [] {
      RoutableStepIsAttentive(prefix, s, steps[0], k);
      StepKeepsInv(prefix, s, steps[0]);
      PublishesOnce(prefix, s, steps[0]);
      BindingStays(prefix, s, steps[0], k);
      RoutableRunIsAttentive(prefix, Next(prefix, s, steps[0]), steps[1..], k, address);
    }
  }

  /** From the moment a session is published, in every run that uses it hourly, while its
      address is routable by every configuration and every store a clean takes its list from:
      the session lives, and each request with it was sent to its address or is on the way. */
  lemma RoutableSessionsPersist(prefix: string, s0: System, before: seq<Step>, c: nat, bind: Bind, after: seq<Step>,
                                id: nat)
    requires Initial(s0) && IsRun(prefix, s0, before) && bind.address != ""
    requires Enabled(prefix, After(prefix, s0, before), Publish(c, bind, true))
    requires var s := Next(prefix, After(prefix, s0, before), Publish(c, bind, true));
             IsRun(prefix, s, after) && RoutableRun(prefix, s, after, bind.key, bind.address)
    ensures var s := Next(prefix, After(prefix, s0, before), Publish(c, bind, true));
            var e := After(prefix, s, after);
            && bind.key in s.served && bind.address == s.served[bind.key]
            && Live(e.db, e.now, bind.key) && e.db[bind.key].endpoint == bind.address
            && (id in e.started && id !in s.started && e.started[id] == bind.key ==>
                  Reaches(e, id, bind.key, bind.address))
  {
    var s' := After(prefix, s0, before);
    var s := Next(prefix, s', Publish(c, bind, true));
    InitialInv(s0);
    RunKeepsInv(prefix, s0, before);
    StepKeepsInv(prefix, s', Publish(c, bind, true));
    RoutableRunIsAttentive(prefix, s, after, bind.key, bind.address);
    StickyPersistence(prefix, s0, before, c, bind, after, id);
  }
}
