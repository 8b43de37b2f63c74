/** internal/ingress/handler/http/handler.go: choosing where a request goes. */
module Handler {
  import opened Go
  import opened Types
  import opened RedisKeys

  datatype Url = Url(host: string, port: string)
  type ProxyMap = map<string, Url>

  /** The port used for a session whose address has no proxy yet. */
  const STICKY_PORT := "7001"

  datatype Cookie = NoCookie | BadCookie | Session(value: string)

  /** `classLookup`: a GET for the path of the class-lookup special case. */
  datatype Request = Request(host: string, cookie: Cookie, classLookup: bool)

  datatype Answer =
    | BadRequest           // 400
    | NotFound             // 404
    | Unavailable          // 503
    | InternalError        // 500
    | Aborted              // the handler panics and the server drops the connection
    | Forwarded(url: Url)

  /** The proxy map after making sure that an address has a proxy. */
  function WithProxy(proxies: ProxyMap, address: string, port: string): ProxyMap {
    if address in proxies then proxies else proxies[address := Url(address, port)]
  }

  /** Every proxy leads to the host that is its key. */
  ghost predicate ProxiesMatch(proxies: ProxyMap) {
    forall a :: a in proxies ==> proxies[a].host == a
  }

  lemma WithProxyMatches(proxies: ProxyMap, address: string, port: string)
    requires ProxiesMatch(proxies)
    ensures ProxiesMatch(WithProxy(proxies, address, port))
    ensures address in WithProxy(proxies, address, port) && WithProxy(proxies, address, port)[address].host == address
  {
  }

  /** A request for an address goes where the known proxy of the address leads, or else straight
      to the address at the port; the proxy is then known, and no other changes. */
  ghost predicate LeadsTo(before: ProxyMap, address: string, port: string, url: Url, after: ProxyMap) {
    && url == (if address in before then before[address] else Url(address, port)) && url.host == address
    && after.Keys == before.Keys + {address} && after[address] == url
    && forall a :: a in before && a != address ==> after[a] == before[a]
  }

  /** What the lookup of a cookie answers: an error, or an endpoint that is empty when the
      session is gone. */
  datatype Lookup = Failed | Found(endpoint: string)

  /** The first endpoint of the first entry, if there is one. */
  function AnyEndpoint(c: Configuration): (e: Ptr<Endpoint>)
    requires Routable(c)
  {
    var s := c.services.Seq();
    if s == [] || s[0].v.backend.v.endpoints.s == [] then Nil else Ref(s[0].v.backend.v.endpoints.s[0])
  }

  /** There is no entry, or the first one has no endpoint. */
  ghost predicate FirstIsEmpty(c: Configuration)
    requires Routable(c)
  {
    c.services.Seq() == [] || c.services.Seq()[0].v.backend.v.endpoints.s == []
  }

  class WLSHandler {
    var proxyMap: ProxyMap
    var targetConfig: Configuration

    ghost predicate Valid()
      reads this
    {
      Routable(targetConfig) && ProxiesMatch(proxyMap)
    }

    constructor (config: Configuration)
      requires Routable(config)
      ensures Valid() && proxyMap == map[] && targetConfig == config
    {
      proxyMap := map[];
      targetConfig := config;
    }

    method UpdateConfiguration(config: Configuration)
      requires Valid() && Routable(config)
      modifies this
      ensures Valid() && targetConfig == config && proxyMap == old(proxyMap)
    {
      targetConfig := config;
    }

    /** The host without its port. */
    method GetHost(r: Request) returns (host: string)
      ensures ':' !in host && (r.host == host || exists rest :: r.host == host + ":" + rest)
    {
      if r.host == "" {
        return "";
      }
      var pieces := Split(r.host, ":");
      host := pieces[0];
      HostPiece(r.host);
    }

    method GetEndpoints(host: string) returns (endpoints: Slice<Endpoint>)
      requires Valid()
      ensures endpoints == Route(targetConfig, host)
    {
      if targetConfig.services.NilSlice? {
        return NilSlice;
      }
      var services := targetConfig.services.s;
      assert services == targetConfig.services.Seq();
      for i := 0 to |services|
        invariant forall k :: 0 <= k < i ==> services[k].v.hostname != host
      {
        if services[i].v.hostname == host {
          RouteAt(services, i);
          return services[i].v.backend.v.endpoints;
        }
      }
      RouteMissing(services, host);
      endpoints := NilSlice;
    }

    /** handleRootWLS. `urlOk` tells whether the URL of a new proxy parses, `setCookie` is the
        response's Set-Cookie header and `lookup` what the session store answers. Besides the
        answer there may be a session to bind to an address; `index` is the random choice. */
    method HandleRootWLS(r: Request, urlOk: bool, setCookie: string, lookup: Lookup)
      returns (answer: Answer, host: string, index: nat, bind: Ptr<(string, string)>)
      requires Valid()
      modifies this
      ensures Valid() && targetConfig == old(targetConfig)
      ensures ':' !in host && (r.host == host || exists rest :: r.host == host + ":" + rest)
      ensures var eps := Route(targetConfig, host);
              && (answer.BadRequest? <==> host == "" || (r.cookie.BadCookie? && eps.Seq() != []))
              && (answer.NotFound? <==> host != "" && eps.NilSlice? && !r.classLookup)
              && (answer.Aborted? <==> host != "" && eps.NilSlice? && r.classLookup && FirstIsEmpty(targetConfig))
              && (answer.Unavailable? <==>
                    host != "" && (eps == Elems([]) || (eps.Seq() != [] && r.cookie.Session? && lookup == Found(""))))
      ensures answer.Forwarded? && Route(targetConfig, host).Elems? ==>
                Route(targetConfig, host).Seq() != [] && !r.cookie.BadCookie?
      // a class lookup for an unknown host: to any endpoint, whatever the cookie says
      ensures host != "" && r.classLookup && Route(targetConfig, host).NilSlice? && !FirstIsEmpty(targetConfig) ==>
                (answer.Forwarded? <==> urlOk)
      ensures answer.Forwarded? && Route(targetConfig, host).NilSlice? ==>
                var first := targetConfig.services.s[0].v.backend.v.endpoints.s[0];
                r.classLookup && answer.url == Url(first.address, first.port) && proxyMap == old(proxyMap) && bind.Nil?
      // without a cookie: to the chosen endpoint, and then the session is bound to its address
      ensures r.cookie.NoCookie? && host != "" && Route(targetConfig, host).Seq() != [] ==>
                var eps := Route(targetConfig, host).Seq();
                index < |eps| && (answer.Forwarded? <==> urlOk || eps[index].address in old(proxyMap))
      ensures r.cookie.NoCookie? && answer.Forwarded? && Route(targetConfig, host).Elems? ==>
                var eps := Route(targetConfig, host).Seq();
                && index < |eps| && LeadsTo(old(proxyMap), eps[index].address, eps[index].port, answer.url, proxyMap)
                && (bind.Ref? <==> SessionId(setCookie).Ref?)
                && (bind.Ref? ==> bind.v == (SessionId(setCookie).v, eps[index].address))
      // with a session: to its address and nowhere else
      ensures r.cookie.Session? && answer.Forwarded? && Route(targetConfig, host).Elems? ==>
                && lookup.Found? && lookup.endpoint != ""
                && LeadsTo(old(proxyMap), lookup.endpoint, "7001", answer.url, proxyMap)
      ensures r.cookie.Session? && host != "" && Route(targetConfig, host).Seq() != [] ==>
                (answer.Forwarded? <==>
                   lookup.Found? && lookup.endpoint != "" && (urlOk || lookup.endpoint in old(proxyMap)))
      ensures !answer.Forwarded? ==> proxyMap == old(proxyMap)
      ensures bind.Ref? ==> answer.Forwarded? && r.cookie.NoCookie?
    {
      bind, index := Nil, 0;
      host := GetHost(r);
      if host == "" {
        return BadRequest, host, index, bind;
      }
      var endpoints := GetEndpoints(host);
      if endpoints.NilSlice? {
        if r.classLookup {
          var any := AnyEndpoint(targetConfig);
          if any.Nil? {
            return Aborted, host, index, bind;
          }
          if !urlOk {
            return InternalError, host, index, bind;
          }
          return Forwarded(Url(any.v.address, any.v.port)), host, index, bind;
        }
        return NotFound, host, index, bind;
      }
      if |endpoints.s| == 0 {
        return Unavailable, host, index, bind;
      }
      if r.cookie.BadCookie? {
        return BadRequest, host, index, bind;
      }
      if r.cookie.NoCookie? {
        index :| 0 <= index < |endpoints.s|;
        var e := endpoints.s[index];
        if e.address !in proxyMap && !urlOk {
          return InternalError, host, index, bind;
        }
        WithProxyMatches(proxyMap, e.address, e.port);
        proxyMap := WithProxy(proxyMap, e.address, e.port);
        answer := Forwarded(proxyMap[e.address]);
        // The header is read once the response is served; without a session in it, an
        // error is written behind the response.
        var id := SessionId(setCookie);
        if id.Ref? {
          bind := Ref((id.v, e.address));
        }
        return;
      }
      if lookup.Failed? {
        return InternalError, host, index, bind;
      }
      if lookup.endpoint == "" {
        return Unavailable, host, index, bind;
      }
      if lookup.endpoint !in proxyMap && !urlOk {
        return InternalError, host, index, bind;
      }
      WithProxyMatches(proxyMap, lookup.endpoint, STICKY_PORT);
      proxyMap := WithProxy(proxyMap, lookup.endpoint, STICKY_PORT);
      answer := Forwarded(proxyMap[lookup.endpoint]);
    }
  }

  lemma HostPiece(text: string)
    ensures var host := Split(text, ":")[0];
            ':' !in host && (text == host || exists rest :: text == host + ":" + rest)
  {
    var k := IndexFrom(text, ":", 0);
    if k <= |text| {
      NoColonBefore(text, k);
      assert text[k..k + 1] == ":";
      assert text == text[..k] + ":" + text[k + 1..];
    } else {
      NoColonBefore(text, |text|);
      assert text[..|text|] == text;
    }
  }

  lemma NoColonBefore(text: string, k: nat)
    requires k <= |text| && forall i: nat :: i < k ==> !OccursAt(text, ":", i)
    ensures ':' !in text[..k]
  {
    forall i | 0 <= i < k ensures text[i] != ':' {
      assert !OccursAt(text, ":", i);
      assert text[i..i + 1] == [text[i]];
    }
  }
}
