/** internal/ingress/controller: syncIngress and OnUpdate, over the handler and the session
    store they update. */
module Controller {
  import opened Go
  import opened Types
  import opened Builder
  import opened Handler
  import opened Redis
  import Store

  /** `a` is an address of the configuration. */
  ghost predicate Routes(c: Configuration, a: string)
    requires Routable(c)
  {
    var s := c.services.Seq();
    exists i, j :: 0 <= i < |s| && 0 <= j < |s[i].v.backend.v.endpoints.s| &&
          s[i].v.backend.v.endpoints.s[j].address == a
  }

  class WLSController {
    var runningConfig: Configuration
    var leader: bool
    const proxy: WLSHandler
    const redisManager: Manager

    constructor (proxy: WLSHandler, redisManager: Manager)
      ensures this.proxy == proxy && this.redisManager == redisManager
      ensures runningConfig == Configuration(NilSlice) && !leader
    {
      this.proxy, this.redisManager := proxy, redisManager;
      runningConfig, leader := Configuration(NilSlice), false;
    }

    /** The handler routes by the running configuration. */
    ghost predicate Valid()
      reads this, proxy
    {
      proxy.Valid() && runningConfig == proxy.targetConfig
    }

    /** The callbacks of the leader election; routing goes on as it was. */
    method SetLeader(leader: bool)
      requires Valid()
      modifies this`leader
      ensures Valid() && this.leader == leader
    {
      this.leader := leader;
    }

    /** Installs a configuration. The leader then cleans the sessions: those of the
        namespace that are bound to no address of the new configuration go, and no other. */
    method OnUpdate(ingressIn: Configuration, now: int, faults: Faults)
      requires Valid() && Routable(ingressIn)
      modifies this, proxy, redisManager
      ensures Valid() && runningConfig == ingressIn && leader == old(leader) && proxy.proxyMap == old(proxy.proxyMap)
      ensures !leader ==> redisManager.db == old(redisManager.db)
      ensures forall k :: k in redisManager.db ==>
                k in old(redisManager.db) && redisManager.db[k] == old(redisManager.db)[k]
      ensures forall k :: k in old(redisManager.db) && Routes(ingressIn, old(redisManager.db)[k].endpoint) ==>
                k in redisManager.db
      ensures leader && faults == NONE ==>
                forall k ::
                  Live(redisManager.db, now, k) && RedisKeys.InNamespace(redisManager.prefix, k) ==>
                  Routes(ingressIn, redisManager.db[k].endpoint)
    {
      runningConfig := ingressIn;
      proxy.UpdateConfiguration(ingressIn);
      if leader {
        var ips := Addresses(ingressIn);
        var err := redisManager.Clean(ips, now, faults);
      }
    }

    /** syncIngress: builds a configuration from the listed ingresses, and installs it unless
        it is equal to the running one. */
    method SyncIngress(snap: Snapshot, listing: seq<Ingress>, now: int, faults: Faults)
      returns (generated: Configuration, reloaded: bool)
      requires Valid() && AllUsable(Store.InOrder(listing))
      modifies this, proxy, redisManager
      ensures ConfigurationOf(generated, ServerMap(snap, Rules(Store.InOrder(listing))))
      ensures Valid() && ViewConfiguration(proxy.targetConfig) == ViewConfiguration(generated)
      ensures reloaded <==> ViewConfiguration(old(runningConfig)) != ViewConfiguration(generated)
      ensures runningConfig == if reloaded then generated else old(runningConfig)
    {
      var ings := Store.ListIngresses(listing);
      generated := GetConfiguration(snap, ings);
      ConfigurationsEqualIffSameViews(runningConfig, generated);
      if ConfigurationEqual(Ref(runningConfig), Ref(generated)) {
        return generated, false;
      }
      TotalLookup(snap, Rules(ings), generated, "");
      OnUpdate(generated, now, faults);
      reloaded := true;
    }
  }

  /** The addresses of a configuration, in order. */
  method Addresses(c: Configuration) returns (ips: seq<string>)
    requires Routable(c)
    ensures forall a :: a in ips <==> Routes(c, a)
  {
    ips := [];
    var s := c.services.Seq();
    for i := 0 to |s|
      invariant forall a :: a in ips <==> RoutesIn(c, i, a)
    {
      var eps := s[i].v.backend.v.endpoints.s;
      ghost var before := ips;
      for j := 0 to |eps|
        invariant forall a :: a in ips <==> a in before || exists k :: 0 <= k < j && eps[k].address == a
      {
        ips := ips + [eps[j].address];
      }
    }
  }

  /** `a` is an address of one of the first `n` entries. */
  ghost predicate RoutesIn(c: Configuration, n: nat, a: string)
    requires Routable(c) && n <= |c.services.Seq()|
  {
    var s := c.services.Seq();
    exists i, j :: 0 <= i < n && 0 <= j < |s[i].v.backend.v.endpoints.s| && s[i].v.backend.v.endpoints.s[j].address == a
  }
}
