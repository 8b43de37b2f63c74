/** The sticky-session protocol: any number of controllers over one Redis database. A
    request is several steps, and so is a clean; any of them may interleave. */
module Sessions {
  import opened Go
  import opened Types
  import opened Handler
  import opened RedisKeys
  import opened Redis

  /** A served request whose session is to be published. */
  datatype Bind = Bind(key: string, address: string)

  /** What became of a request that carried a session. */
  datatype Outcome = SentTo(host: string) | Refused

  /** A request that has read its session's address and is not answered yet. */
  datatype Sticky = Sticky(key: string, address: string, refreshed: bool)

  /** The sub-steps of Clean; the manager's mutex admits one at a time. */
  datatype Cleaner =
    | Resting
    | Cleaning(listed: seq<string>, unread: set<string>, entries: map<string, string>)

  /** One controller: `table` is what its configuration answers for each host. */
  datatype Controller = Controller(
    proxies: ProxyMap, table: map<string, seq<Endpoint>>,
    binds: set<Bind>, requests: map<nat, Sticky>, cleaner: Cleaner)

  /** `used` holds the keys anyone ever wrote or found, `issued` those given to sessions,
      `served` the host that the request was forwarded to which a session was issued for,
      `bound` the address each session was published with, `touched` when it was last
      published or refreshed, `started` the key that each request with a session looked
      up, and `answers` what became of it. */
  datatype System = System(
    db: Database, now: int, controllers: map<nat, Controller>,
    used: set<string>, issued: set<string>, served: map<string, string>,
    bound: map<string, string>, touched: map<string, int>,
    started: map<nat, string>, answers: map<nat, Outcome>)

  datatype Step =
    | Tick(d: nat)
    | Join(c: nat, table: map<string, seq<Endpoint>>)
    | Configure(c: nat, table: map<string, seq<Endpoint>>)
    | Foreign(key: string, entry: Ptr<Entry>)                  // someone else's key
    | Serve(c: nat, host: string, index: nat, session: Ptr<string>) // forward without a cookie
    | Publish(c: nat, bind: Bind, ok: bool)                    // AddCookie, after the response
    | Find(c: nat, id: nat, host: string, cookie: string, ok: bool) // GET
    | Refresh(c: nat, id: nat, ok: bool)                       // EXPIRE; a failure is only logged
    | Send(c: nat, id: nat, urlOk: bool)                       // forward with a cookie
    | Scan(c: nat, listed: seq<string>)                        // KEYS
    | Read(c: nat, key: string, ok: bool)                      // GET
    | Delete(c: nat, key: string, ok: bool)                    // DEL
    | Rest(c: nat)

  predicate HasEndpoints(t: Controller, host: string) { host in t.table && t.table[host] != [] }

  predicate Enabled(prefix: string, s: System, step: Step) {
    match step
    case Tick(_) => true
    case Join(c, _) => c !in s.controllers
    case Configure(c, _) => c in s.controllers
    case Foreign(key, _) => key !in s.issued
    case Serve(c, host, index, id) =>
      && c in s.controllers && HasEndpoints(s.controllers[c], host) && index < |s.controllers[c].table[host]|
      && (id.Ref? ==> NamespacedKey(prefix, id.v) !in s.used)
    case Publish(c, bind, _) => c in s.controllers && bind in s.controllers[c].binds
    case Find(c, id, host, _, _) =>
      c in s.controllers && HasEndpoints(s.controllers[c], host) && id !in s.started
    case Refresh(c, id, _) =>
      c in s.controllers && id in s.controllers[c].requests && !s.controllers[c].requests[id].refreshed
    case Send(c, id, _) =>
      c in s.controllers && id in s.controllers[c].requests && s.controllers[c].requests[id].refreshed
    case Scan(c, _) => c in s.controllers && s.controllers[c].cleaner.Resting?
    case Read(c, key, _) =>
      c in s.controllers && s.controllers[c].cleaner.Cleaning? && key in s.controllers[c].cleaner.unread
    case Delete(c, key, _) =>
      && c in s.controllers && s.controllers[c].cleaner.Cleaning?
      && s.controllers[c].cleaner.unread == {} && key in s.controllers[c].cleaner.entries
    case Rest(c) =>
      && c in s.controllers && s.controllers[c].cleaner.Cleaning?
      && s.controllers[c].cleaner.unread == {} && s.controllers[c].cleaner.entries == map[]
  }

  function Put(s: System, c: nat, t: Controller): System { s.(controllers := s.controllers[c := t]) }

  function Serving(prefix: string, t: Controller, e: Endpoint, id: Ptr<string>): Controller {
    t.(proxies := WithProxy(t.proxies, e.address, e.port),
       binds := if id.Ref? then t.binds + {Bind(NamespacedKey(prefix, id.v), e.address)} else t.binds)
  }

  function Served(prefix: string, s: System, c: nat, e: Endpoint, id: Ptr<string>): System
    requires c in s.controllers
  {
    var t := Serving(prefix, s.controllers[c], e, id);
    Put(if id.Ref? then Issued(s, NamespacedKey(prefix, id.v), t.proxies[e.address].host) else s, c, t)
  }

  /** A session is issued for a request that was forwarded to the host. */
  function Issued(s: System, key: string, host: string): System {
    s.(used := s.used + {key}, issued := s.issued + {key}, served := s.served[key := host])
  }

  function Published(s: System, c: nat, bind: Bind, ok: bool): System
    requires c in s.controllers
  {
    var t := s.controllers[c];
    Put(s, c, t.(binds := t.binds - {bind}))
      .(db := if ok then Set(s.db, s.now, bind.key, bind.address) else s.db,
        bound := if ok then s.bound[bind.key := bind.address] else s.bound,
        touched := if ok then s.touched[bind.key := s.now] else s.touched)
  }

  function Answered(s: System, id: nat, o: Outcome): System { s.(answers := s.answers[id := o]) }

  function Started(s: System, id: nat, key: string): System {
    s.(used := s.used + {key}, started := s.started[id := key])
  }

  /** A lookup that fails, and one that finds no session or an empty address, ends the request. */
  function FoundBy(prefix: string, s: System, c: nat, id: nat, cookie: string, ok: bool): System
    requires c in s.controllers
  {
    var t := s.controllers[c];
    var key := NamespacedKey(prefix, cookie);
    var answer := Redis.Get(s.db, s.now, key);
    if ok && answer.Ref? && answer.v != "" then
      Put(Started(s, id, key), c, t.(requests := t.requests[id := Sticky(key, answer.v, false)]))
    else Answered(Started(s, id, key), id, Refused)
  }

  /** EXPIRE of a key, which does nothing when it is gone. */
  function Touched(s: System, key: string): System {
    s.(db := Expire(s.db, s.now, key),
       touched := if Live(s.db, s.now, key) then s.touched[key := s.now] else s.touched)
  }

  function Refreshed(s: System, c: nat, id: nat, ok: bool): System
    requires c in s.controllers && id in s.controllers[c].requests
  {
    var t := s.controllers[c];
    var r := t.requests[id];
    Put(if ok then Touched(s, r.key) else s, c, t.(requests := t.requests[id := r.(refreshed := true)]))
  }

  /** A new proxy is made unless its URL does not parse. */
  function SentOn(s: System, c: nat, id: nat, urlOk: bool): System
    requires c in s.controllers && id in s.controllers[c].requests
  {
    var t := s.controllers[c];
    var a := t.requests[id].address;
    var proxies := if urlOk then WithProxy(t.proxies, a, STICKY_PORT) else t.proxies;
    Answered(Put(s, c, t.(proxies := proxies, requests := t.requests - {id})), id,
             if a in proxies then SentTo(proxies[a].host) else Refused)
  }

  function Scanned(prefix: string, s: System, c: nat, listed: seq<string>): System
    requires c in s.controllers
  {
    var keys := set k | k in s.db && s.now < s.db[k].expiry && InNamespace(prefix, k);
    Put(s, c, s.controllers[c].(cleaner := Cleaning(listed, keys, map[])))
  }

  function ReadOne(s: System, c: nat, key: string, ok: bool): System
    requires c in s.controllers && s.controllers[c].cleaner.Cleaning?
  {
    var t := s.controllers[c];
    var answer := Redis.Get(s.db, s.now, key);
    var value := if answer.Ref? then answer.v else "";
    Put(s, c, t.(cleaner := Cleaning(t.cleaner.listed, t.cleaner.unread - {key},
                                     if ok then t.cleaner.entries[key := value] else t.cleaner.entries)))
  }

  function Deleted(s: System, c: nat, key: string, ok: bool): System
    requires c in s.controllers && s.controllers[c].cleaner.Cleaning? && key in s.controllers[c].cleaner.entries
  {
    var t := s.controllers[c];
    var drop := ok && t.cleaner.entries[key] !in t.cleaner.listed;
    Put(s, c, t.(cleaner := Cleaning(t.cleaner.listed, t.cleaner.unread, t.cleaner.entries - {key})))
      .(db := if drop then s.db - {key} else s.db)
  }

  function Rested(s: System, c: nat): System
    requires c in s.controllers
  {
    Put(s, c, s.controllers[c].(cleaner := Resting))
  }

  function Next(prefix: string, s: System, step: Step): System
    requires Enabled(prefix, s, step)
  {
    match step
    case Tick(d) => s.(now := s.now + d)
    case Join(c, table) => Put(s, c, Controller(map[], table, {}, map[], Resting))
    case Configure(c, table) => Put(s, c, s.controllers[c].(table := table))
    case Foreign(key, entry) =>
      s.(db := if entry.Ref? then s.db[key := entry.v] else s.db - {key}, used := s.used + {key})
    case Serve(c, host, index, id) => Served(prefix, s, c, s.controllers[c].table[host][index], id)
    case Publish(c, bind, ok) => Published(s, c, bind, ok)
    case Find(c, id, _, cookie, ok) => FoundBy(prefix, s, c, id, cookie, ok)
    case Refresh(c, id, ok) => Refreshed(s, c, id, ok)
    case Send(c, id, urlOk) => SentOn(s, c, id, urlOk)
    case Scan(c, listed) => Scanned(prefix, s, c, listed)
    case Read(c, key, ok) => ReadOne(s, c, key, ok)
    case Delete(c, key, ok) => Deleted(s, c, key, ok)
    case Rest(c) => Rested(s, c)
  }

  ghost predicate IsRun(prefix: string, s: System, steps: seq<Step>)
    decreases |steps|
  {
    steps == [] || (Enabled(prefix, s, steps[0]) && IsRun(prefix, Next(prefix, s, steps[0]), steps[1..]))
  }

  ghost function After(prefix: string, s: System, steps: seq<Step>): System
    requires IsRun(prefix, s, steps)
    decreases |steps|
  {
    if steps == [] then s else After(prefix, Next(prefix, s, steps[0]), steps[1..])
  }

  /** No controllers yet; the database may hold other people's keys. */
  ghost predicate Initial(s: System) {
    && s.controllers == map[] && s.issued == {} && s.served == map[] && s.bound == map[] && s.touched == map[]
    && s.started == map[] && s.answers == map[]
    && (forall k :: k in s.db ==> k in s.used)
  }

  // ---- What every step keeps -------------------------------------------------

  /** A session's entry holds the address it was bound to, for an hour since it was touched. */
  ghost predicate EntryOk(s: System, k: string) {
    && (k in s.served ==> k in s.issued)
    && (k in s.bound ==> k in s.served && s.bound[k] == s.served[k] && k in s.touched && s.touched[k] <= s.now)
    && (k in s.db ==> k in s.used)
    && (k in s.db && k in s.issued ==>
          k in s.bound && s.db[k].endpoint == s.bound[k] && k in s.touched && s.db[k].expiry == s.touched[k] + HOUR)
    && (k in s.issued ==> k in s.used)
  }

  ghost predicate DatabaseInv(s: System) {
    forall k :: EntryOk(s, k)
  }

  /** A session still to be published was issued, for a request that its address served, and is
      not published yet. */
  ghost predicate BindOk(s: System, b: Bind) {
    b.key in s.served && s.served[b.key] == b.address && b.key in s.issued && b.key !in s.bound
  }

  /** A request carries the address its session was bound to. */
  ghost predicate RequestOk(s: System, id: nat, r: Sticky) {
    && id in s.started && s.started[id] == r.key
    && r.key in s.used && (r.key in s.issued ==> r.key in s.bound && s.bound[r.key] == r.address)
  }

  /** What a cleaner has read of a session is the bound address, or the session is gone. */
  ghost predicate CleanerOk(s: System, cl: Cleaner) {
    cl.Cleaning? ==>
      && (forall k :: k in cl.unread ==> k in s.used && (k in s.issued ==> k in s.bound))
      && (forall k :: k in cl.entries ==>
            k in s.used && (k in s.issued ==> k in s.bound && (cl.entries[k] == s.bound[k] || !Live(s.db, s.now, k))))
  }

  ghost predicate ControllerOk(s: System, t: Controller) {
    && ProxiesMatch(t.proxies)
    && (forall b :: b in t.binds ==> BindOk(s, b))
    && (forall id :: id in t.requests ==> RequestOk(s, id, t.requests[id]))
    && CleanerOk(s, t.cleaner)
  }

  ghost predicate Separate(x: set<Bind>, y: set<Bind>, same: bool) {
    forall a, b :: a in x && b in y && a.key == b.key ==> same && a == b
  }

  /** No session waits to be published twice. */
  ghost predicate BindsUnique(s: System) {
    forall c, d :: c in s.controllers && d in s.controllers ==>
      Separate(s.controllers[c].binds, s.controllers[d].binds, c == d)
  }

  /** A forwarded request went to the address its session was bound to. */
  ghost predicate AnswerOk(s: System, id: nat, o: Outcome) {
    && id in s.started
    && (o.SentTo? && s.started[id] in s.issued ==> s.started[id] in s.bound && o.host == s.bound[s.started[id]])
  }

  ghost predicate AnswersOk(s: System) {
    && (forall id :: id in s.started ==> s.started[id] in s.used)
    && (forall id :: id in s.answers ==> AnswerOk(s, id, s.answers[id]))
  }

  ghost predicate Inv(s: System) {
    && DatabaseInv(s) && BindsUnique(s) && AnswersOk(s)
    && (forall c :: c in s.controllers ==> ControllerOk(s, s.controllers[c]))
  }

  // ---- Framing ---------------------------------------------------------------

  /** What a step may do to the shared part: keys are used and issued, issued keys are
      fresh, bindings are never changed, and a published session that is gone stays gone. */
  ghost predicate Grows(s: System, s': System) {
    && s.used <= s'.used && s.issued <= s'.issued
    && (forall k :: k in s'.issued ==> k in s.issued || k !in s.used)
    && (forall k :: k in s.served ==> k in s'.served && s'.served[k] == s.served[k])
    && (forall k :: k in s.bound ==> k in s'.bound && s'.bound[k] == s.bound[k])
    && (forall k :: k in s.bound && !Live(s.db, s.now, k) ==> !Live(s'.db, s'.now, k))
    && (forall id :: id in s.started ==> id in s'.started && s'.started[id] == s.started[id])
  }

  lemma ControllerFrame(s: System, s': System, t: Controller)
    requires Grows(s, s') && ControllerOk(s, t)
    requires forall b :: b in t.binds ==> b.key !in s'.bound
    ensures ControllerOk(s', t)
  {
    forall id | id in t.requests ensures RequestOk(s', id, t.requests[id]) {
      assert RequestOk(s, id, t.requests[id]);
    }
    forall b | b in t.binds ensures BindOk(s', b) {
      assert BindOk(s, b);
    }
  }

  /** Controllers that did not move stay right. */
  lemma OthersFrame(s: System, s': System, c: nat)
    requires Inv(s) && Grows(s, s') && c in s'.controllers && s'.controllers == s.controllers[c := s'.controllers[c]]
    requires forall d, b :: d in s.controllers && d != c && b in s.controllers[d].binds ==> b.key !in s'.bound
    requires ControllerOk(s', s'.controllers[c])
    ensures forall d :: d in s'.controllers ==> ControllerOk(s', s'.controllers[d])
  {
    forall d | d in s'.controllers ensures ControllerOk(s', s'.controllers[d]) {
      if d != c {
        ControllerFrame(s, s', s.controllers[d]);
      }
    }
  }

  function BindsOf(s: System, c: nat): set<Bind> { if c in s.controllers then s.controllers[c].binds else {} }

  /** Publishing less, or a fresh key more, keeps the waiting keys apart. */
  lemma BindsFrame(s: System, s': System, c: nat, added: set<Bind>)
    requires BindsUnique(s) && c in s'.controllers && s'.controllers == s.controllers[c := s'.controllers[c]]
    requires s'.controllers[c].binds <= BindsOf(s, c) + added
    requires forall a, b :: a in added && b in added ==> a == b
    requires forall d, a, b :: d in s.controllers && a in s.controllers[d].binds && b in added ==> a.key != b.key
    ensures BindsUnique(s')
  {
    forall i, j | i in s'.controllers && j in s'.controllers
      ensures Separate(s'.controllers[i].binds, s'.controllers[j].binds, i == j)
    {
      assert Separate(BindsOf(s, i), BindsOf(s, j), i == j);
      SeparateWithFresh(BindsOf(s, i), BindsOf(s, j), s'.controllers[i].binds, s'.controllers[j].binds,
                        if i == c then added else {}, if j == c then added else {}, i == j);
    }
  }

  /** Sets of bindings stay apart when each gets at most a fresh one, and not both. */
  lemma SeparateWithFresh(x: set<Bind>, y: set<Bind>, x': set<Bind>, y': set<Bind>, xs: set<Bind>, ys: set<Bind>,
                          same: bool)
    requires Separate(x, y, same) && x' <= x + xs && y' <= y + ys
    requires forall a, b :: a in xs && b in ys ==> same && a == b
    requires forall a, b :: a in x && b in ys ==> a.key != b.key
    requires forall a, b :: a in xs && b in y ==> a.key != b.key
    ensures Separate(x', y', same)
  {
    forall a, b | a in x' && b in y' && a.key == b.key ensures same && a == b {
      assert a in x || a in xs;
      assert b in y || b in ys;
    }
  }

  lemma AnswersFrame(s: System, s': System)
    requires AnswersOk(s) && Grows(s, s') && s'.answers == s.answers && s'.started == s.started
    ensures AnswersOk(s')
  {
    forall id | id in s'.answers ensures AnswerOk(s', id, s'.answers[id]) {
      assert AnswerOk(s, id, s.answers[id]);
    }
  }

  // ---- Steps -----------------------------------------------------------------

  /** Only the one controller moves. */
  lemma LocalStep(s: System, c: nat, t: Controller)
    requires Inv(s) && ControllerOk(s, t) && t.binds <= BindsOf(s, c)
    ensures Inv(Put(s, c, t))
  {
    BindingStep(s, c, t, {});
  }

  /** It may have sessions to publish that nobody else has. */
  lemma BindingStep(s: System, c: nat, t: Controller, added: set<Bind>)
    requires Inv(s) && ControllerOk(s, t) && t.binds <= BindsOf(s, c) + added
    requires forall a, b :: a in added && b in added ==> a == b
    requires forall d, a, b :: d in s.controllers && a in s.controllers[d].binds && b in added ==> a.key != b.key
    ensures Inv(Put(s, c, t))
  {
    var s' := Put(s, c, t);
    ControllerFrame(s, s', t);
    OthersFrame(s, s', c);
    BindsFrame(s, s', c, added);
    AnswersFrame(s, s');
    PutKeepsEntries(s, c, t);
  }

  lemma PutKeepsEntries(s: System, c: nat, t: Controller)
    requires DatabaseInv(s)
    ensures DatabaseInv(Put(s, c, t))
  {
    forall k ensures EntryOk(Put(s, c, t), k) {
      assert EntryOk(s, k);
    }
  }

  /** Only what is shared moves. */
  lemma SharedStep(s: System, s': System)
    requires Inv(s) && DatabaseInv(s') && AnswersOk(s') && Grows(s, s')
    requires s'.controllers == s.controllers && s'.bound == s.bound
    ensures Inv(s')
  {
    forall c | c in s'.controllers ensures ControllerOk(s', s'.controllers[c]) {
      forall b | b in s.controllers[c].binds ensures b.key !in s'.bound {
        assert BindOk(s, b);
      }
      ControllerFrame(s, s', s.controllers[c]);
    }
  }

  lemma TickStep(s: System, d: nat)
    requires Inv(s)
    ensures Inv(s.(now := s.now + d))
  {
    var s' := s.(now := s.now + d);
    forall k ensures EntryOk(s', k) {
      assert EntryOk(s, k);
    }
    SharedStep(s, s');
  }

  lemma ForeignStep(prefix: string, s: System, key: string, entry: Ptr<Entry>)
    requires Inv(s) && Enabled(prefix, s, Foreign(key, entry))
    ensures Inv(Next(prefix, s, Foreign(key, entry)))
  {
    var s' := Next(prefix, s, Foreign(key, entry));
    forall k ensures EntryOk(s', k) {
      assert EntryOk(s, k);
    }
    assert Grows(s, s') by {
      assert forall k :: k in s.bound ==> EntryOk(s, k);
    }
    AnswersFrame(s, s');
    SharedStep(s, s');
  }

  lemma ServeStep(prefix: string, s: System, c: nat, e: Endpoint, id: Ptr<string>)
    requires Inv(s) && c in s.controllers && (id.Ref? ==> NamespacedKey(prefix, id.v) !in s.used)
    ensures Inv(Served(prefix, s, c, e, id))
  {
    var t := s.controllers[c];
    var t' := Serving(prefix, t, e, id);
    WithProxyMatches(t.proxies, e.address, e.port);
    if id.Nil? {
      LocalStep(s, c, t');
    } else {
      BindStep(s, c, t', Bind(NamespacedKey(prefix, id.v), e.address));
    }
  }

  /** A session is issued, and waits to be published. */
  lemma BindStep(s: System, c: nat, t: Controller, bind: Bind)
    requires Inv(s) && c in s.controllers && bind.key !in s.used && ProxiesMatch(t.proxies)
    requires t == s.controllers[c].(proxies := t.proxies, binds := s.controllers[c].binds + {bind})
    ensures Inv(Put(Issued(s, bind.key, bind.address), c, t))
  {
    var s1 := Issued(s, bind.key, bind.address);
    IssueStep(s, bind.key, bind.address);
    assert ControllerOk(s1, s.controllers[c]) && BindOk(s1, bind);
    BindingStep(s1, c, t, {bind});
  }

  /** A fresh key waits nowhere and is not published. */
  lemma IssueStep(s: System, key: string, host: string)
    requires Inv(s) && key !in s.used
    ensures key !in s.bound
    ensures forall d, a :: d in s.controllers && a in s.controllers[d].binds ==> a.key != key
    ensures Inv(Issued(s, key, host))
  {
    var s' := Issued(s, key, host);
    assert EntryOk(s, key);
    forall d, a | d in s.controllers && a in s.controllers[d].binds ensures a.key != key {
      assert BindOk(s, a);
    }
    forall k ensures EntryOk(s', k) {
      assert EntryOk(s, k);
    }
    AnswersFrame(s, s');
    SharedStep(s, s');
  }

  lemma PublishStep(s: System, c: nat, bind: Bind, ok: bool)
    requires Inv(s) && c in s.controllers && bind in s.controllers[c].binds
    ensures Inv(Published(s, c, bind, ok))
  {
    var s' := Published(s, c, bind, ok);
    var t := s.controllers[c];
    assert ControllerOk(s, t) && BindOk(s, bind);
    PublishShared(s, c, bind, ok);
    AnswersFrame(s, s');
    BindsFrame(s, s', c, {});
    OtherBinds(s, c, bind);
    ControllerFrame(s, s', t.(binds := t.binds - {bind}));
    OthersFrame(s, s', c);
  }

  /** Publishing keeps the database right and only adds to what is shared. */
  lemma PublishShared(s: System, c: nat, bind: Bind, ok: bool)
    requires DatabaseInv(s) && c in s.controllers && BindOk(s, bind)
    ensures DatabaseInv(Published(s, c, bind, ok)) && Grows(s, Published(s, c, bind, ok))
  {
    var s' := Published(s, c, bind, ok);
    forall k ensures EntryOk(s', k) {
      assert EntryOk(s, k);
    }
  }

  /** No other pending binding has the key of this one. */
  lemma OtherBinds(s: System, c: nat, bind: Bind)
    requires Inv(s) && c in s.controllers && bind in s.controllers[c].binds
    ensures forall d, b :: d in s.controllers && b in s.controllers[d].binds && (d != c || b != bind) ==>
              b.key !in s.bound && b.key != bind.key
  {
    forall d, b | d in s.controllers && b in s.controllers[d].binds && (d != c || b != bind)
      ensures b.key !in s.bound && b.key != bind.key
    {
      assert BindOk(s, b) && Separate(s.controllers[c].binds, s.controllers[d].binds, c == d);
    }
  }

  lemma FindStep(prefix: string, s: System, c: nat, id: nat, cookie: string, ok: bool)
    requires Inv(s) && c in s.controllers && id !in s.started
    ensures Inv(FoundBy(prefix, s, c, id, cookie, ok))
  {
    var key := NamespacedKey(prefix, cookie);
    var s1 := Started(s, id, key);
    var answer := Redis.Get(s.db, s.now, key);
    StartStep(s, id, key);
    if ok && answer.Ref? && answer.v != "" {
      assert EntryOk(s, key);
      WaitingStep(s1, c, id, Sticky(key, answer.v, false));
    } else {
      AnswerStep(s1, id, Refused);
    }
  }

  /** A controller comes to know more of a request. */
  lemma WaitingStep(s: System, c: nat, id: nat, r: Sticky)
    requires Inv(s) && c in s.controllers && RequestOk(s, id, r)
    ensures var t := s.controllers[c]; Inv(Put(s, c, t.(requests := t.requests[id := r])))
  {
    var t := s.controllers[c];
    assert ControllerOk(s, t);
    LocalStep(s, c, t.(requests := t.requests[id := r]));
  }

  lemma StartStep(s: System, id: nat, key: string)
    requires Inv(s) && id !in s.started
    ensures Inv(Started(s, id, key))
  {
    var s' := Started(s, id, key);
    forall k ensures EntryOk(s', k) {
      assert EntryOk(s, k);
    }
    forall i | i in s'.answers ensures AnswerOk(s', i, s'.answers[i]) {
      assert AnswerOk(s, i, s.answers[i]);
    }
    SharedStep(s, s');
  }

  lemma AnswerStep(s: System, id: nat, o: Outcome)
    requires Inv(s) && AnswerOk(s, id, o)
    ensures Inv(Answered(s, id, o))
  {
    var s' := Answered(s, id, o);
    forall k ensures EntryOk(s', k) {
      assert EntryOk(s, k);
    }
    forall i | i in s'.answers ensures AnswerOk(s', i, s'.answers[i]) {
      assert i != id ==> AnswerOk(s, i, s.answers[i]);
    }
    SharedStep(s, s');
  }

  lemma TouchStep(s: System, key: string)
    requires Inv(s)
    ensures Inv(Touched(s, key))
  {
    var s' := Touched(s, key);
    forall k ensures EntryOk(s', k) {
      assert EntryOk(s, k);
    }
    AnswersFrame(s, s');
    SharedStep(s, s');
  }

  lemma RefreshStep(s: System, c: nat, id: nat, ok: bool)
    requires Inv(s) && c in s.controllers && id in s.controllers[c].requests
    ensures Inv(Refreshed(s, c, id, ok))
  {
    var t := s.controllers[c];
    var s1 := if ok then Touched(s, t.requests[id].key) else s;
    TouchStep(s, t.requests[id].key);
    assert RequestOk(s1, id, t.requests[id]) by {
      assert ControllerOk(s1, t);
    }
    WaitingStep(s1, c, id, t.requests[id].(refreshed := true));
  }

  /** A request that has found its session is sent to the session's address, or refused. */
  lemma SendGoesToItsAddress(s: System, c: nat, id: nat, urlOk: bool)
    requires Inv(s) && c in s.controllers && id in s.controllers[c].requests
    ensures var r, o := s.controllers[c].requests[id], SentOn(s, c, id, urlOk).answers[id];
            (o.SentTo? ==> o.host == r.address) && (urlOk ==> o.SentTo?)
  {
    assert ControllerOk(s, s.controllers[c]);
    WithProxyMatches(s.controllers[c].proxies, s.controllers[c].requests[id].address, STICKY_PORT);
  }

  lemma SendStep(s: System, c: nat, id: nat, urlOk: bool)
    requires Inv(s) && c in s.controllers && id in s.controllers[c].requests
    ensures Inv(SentOn(s, c, id, urlOk))
  {
    var t := s.controllers[c];
    var s' := SentOn(s, c, id, urlOk);
    SendGoesToItsAddress(s, c, id, urlOk);
    WithProxyMatches(t.proxies, t.requests[id].address, STICKY_PORT);
    assert RequestOk(s, id, t.requests[id]);
    LocalStep(s, c, s'.controllers[c]);
    AnswerStep(Put(s, c, s'.controllers[c]), id, s'.answers[id]);
  }

  lemma ScanStep(prefix: string, s: System, c: nat, listed: seq<string>)
    requires Inv(s) && c in s.controllers
    ensures Inv(Scanned(prefix, s, c, listed))
  {
    var t' := Scanned(prefix, s, c, listed).controllers[c];
    forall k | k in t'.cleaner.unread ensures k in s.used && (k in s.issued ==> k in s.bound) {
      assert EntryOk(s, k);
    }
    LocalStep(s, c, t');
  }

  lemma ReadStep(s: System, c: nat, key: string, ok: bool)
    requires Inv(s) && c in s.controllers && s.controllers[c].cleaner.Cleaning? &&
             key in s.controllers[c].cleaner.unread
    ensures Inv(ReadOne(s, c, key, ok))
  {
    var t' := ReadOne(s, c, key, ok).controllers[c];
    assert EntryOk(s, key);
    assert ControllerOk(s, s.controllers[c]);
    LocalStep(s, c, t');
  }

  lemma DeleteStep(s: System, c: nat, key: string, ok: bool)
    requires Inv(s) && c in s.controllers && s.controllers[c].cleaner.Cleaning? &&
             key in s.controllers[c].cleaner.entries
    ensures Inv(Deleted(s, c, key, ok))
  {
    var s' := Deleted(s, c, key, ok);
    var s1 := s.(db := s'.db);
    if s1.db != s.db {
      DropKey(s, key);
    }
    assert ControllerOk(s1, s.controllers[c]);
    LocalStep(s1, c, s'.controllers[c]);
    assert s' == Put(s1, c, s'.controllers[c]);
  }

  lemma RestStep(s: System, c: nat)
    requires Inv(s) && c in s.controllers
    ensures Inv(Rested(s, c))
  {
    assert ControllerOk(s, s.controllers[c]);
    LocalStep(s, c, s.controllers[c].(cleaner := Resting));
  }

  lemma DropKey(s: System, key: string)
    requires Inv(s)
    ensures Inv(s.(db := s.db - {key}))
  {
    var s' := s.(db := s.db - {key});
    forall k ensures EntryOk(s', k) {
      assert EntryOk(s, k);
    }
    SharedStep(s, s');
  }

  /** The steps of requests, from the forwarding of a new one to the answer of one with a session. */
  predicate RequestStep(step: Step) {
    step.Serve? || step.Publish? || step.Find? || step.Refresh? || step.Send?
  }

  /** The steps of cleans. */
  predicate CleanStep(step: Step) { step.Scan? || step.Read? || step.Delete? || step.Rest? }

  lemma RequestStepKeepsInv(prefix: string, s: System, step: Step)
    requires Inv(s) && Enabled(prefix, s, step) && RequestStep(step)
    ensures Inv(Next(prefix, s, step))
  {
    if step.Serve? {
      ServeStep(prefix, s, step.c, s.controllers[step.c].table[step.host][step.index], step.session);
    } else if step.Publish? {
      PublishStep(s, step.c, step.bind, step.ok);
    } else if step.Find? {
      FindStep(prefix, s, step.c, step.id, step.cookie, step.ok);
    } else if step.Refresh? {
      RefreshStep(s, step.c, step.id, step.ok);
    } else {
      SendStep(s, step.c, step.id, step.urlOk);
    }
  }

  lemma CleanStepKeepsInv(prefix: string, s: System, step: Step)
    requires Inv(s) && Enabled(prefix, s, step) && CleanStep(step)
    ensures Inv(Next(prefix, s, step))
  {
    if step.Scan? {
      ScanStep(prefix, s, step.c, step.listed);
    } else if step.Read? {
      ReadStep(s, step.c, step.key, step.ok);
    } else if step.Delete? {
      DeleteStep(s, step.c, step.key, step.ok);
    } else {
      RestStep(s, step.c);
    }
  }

  lemma StepKeepsInv(prefix: string, s: System, step: Step)
    requires Inv(s) && Enabled(prefix, s, step)
    ensures Inv(Next(prefix, s, step))
  {
    if RequestStep(step) {
      RequestStepKeepsInv(prefix, s, step);
    } else if CleanStep(step) {
      CleanStepKeepsInv(prefix, s, step);
    } else if step.Tick? {
      TickStep(s, step.d);
    } else if step.Foreign? {
      ForeignStep(prefix, s, step.key, step.entry);
    } else if step.Join? {
      LocalStep(s, step.c, Controller(map[], step.table, {}, map[], Resting));
    } else {
      LocalStep(s, step.c, s.controllers[step.c].(table := step.table));
    }
  }

  lemma {:induction false} RunKeepsInv(prefix: string, s: System, steps: seq<Step>)
    requires Inv(s) && IsRun(prefix, s, steps)
    ensures Inv(After(prefix, s, steps))
    decreases |steps|
  {
    if steps != [] {
      StepKeepsInv(prefix, s, steps[0]);
      RunKeepsInv(prefix, Next(prefix, s, steps[0]), steps[1..]);
    }
  }

  lemma InitialInv(s: System)
    requires Initial(s)
    ensures Inv(s)
  {
  }

  // ---- Safety ----------------------------------------------------------------

  lemma {:induction false} BindingsNeverChange(prefix: string, s: System, steps: seq<Step>, k: string)
    requires Inv(s) && IsRun(prefix, s, steps) && k in s.bound
    ensures k in After(prefix, s, steps).bound && After(prefix, s, steps).bound[k] == s.bound[k]
    decreases |steps|
  {
    if steps != [] {
      StepKeepsInv(prefix, s, steps[0]);
      PublishesOnce(prefix, s, steps[0]);
      BindingStays(prefix, s, steps[0], k);
      BindingsNeverChange(prefix, Next(prefix, s, steps[0]), steps[1..], k);
    }
  }

  lemma BindingStays(prefix: string, s: System, step: Step, k: string)
    requires Enabled(prefix, s, step) && k in s.bound && (step.Publish? ==> BindOk(s, step.bind))
    ensures k in Next(prefix, s, step).bound && Next(prefix, s, step).bound[k] == s.bound[k]
  {
    if !step.Publish? {
      if RequestStep(step) {
        RequestsBindNothing(prefix, s, step);
      } else {
        OthersBindNothing(prefix, s, step);
      }
    }
  }

  lemma RequestsBindNothing(prefix: string, s: System, step: Step)
    requires Enabled(prefix, s, step) && RequestStep(step) && !step.Publish?
    ensures Next(prefix, s, step).bound == s.bound
  {
    if step.Find? {
      FindBindsNothing(prefix, s, step.c, step.id, step.cookie, step.ok);
    } else if step.Send? {
      SendBindsNothing(s, step.c, step.id, step.urlOk);
    }
  }

  lemma FindBindsNothing(prefix: string, s: System, c: nat, id: nat, cookie: string, ok: bool)
    requires c in s.controllers
    ensures FoundBy(prefix, s, c, id, cookie, ok).bound == s.bound
    ensures FoundBy(prefix, s, c, id, cookie, ok).served == s.served
  {
  }

  lemma SendBindsNothing(s: System, c: nat, id: nat, urlOk: bool)
    requires c in s.controllers && id in s.controllers[c].requests
    ensures SentOn(s, c, id, urlOk).bound == s.bound && SentOn(s, c, id, urlOk).served == s.served
  {
  }

  lemma OthersBindNothing(prefix: string, s: System, step: Step)
    requires Enabled(prefix, s, step) && !RequestStep(step)
    ensures Next(prefix, s, step).bound == s.bound
  {
  }

  lemma PublishesOnce(prefix: string, s: System, step: Step)
    requires Inv(s) && Enabled(prefix, s, step)
    ensures step.Publish? ==> BindOk(s, step.bind)
  {
  }

  /** Over every run of any number of controllers: once a session is bound to an address,
      every request that ever carries it goes to that host or is refused; and that is the host
      which served the request that the session was issued for. */
  lemma StickySafety(prefix: string, s0: System, before: seq<Step>, after: seq<Step>, id: nat)
    requires Initial(s0) && IsRun(prefix, s0, before) && IsRun(prefix, After(prefix, s0, before), after)
    requires var e := After(prefix, After(prefix, s0, before), after);
             id in e.started && id in e.answers && e.started[id] in After(prefix, s0, before).bound
    ensures var s := After(prefix, s0, before);
            var e := After(prefix, s, after);
            && e.started[id] in s.served && s.bound[e.started[id]] == s.served[e.started[id]]
            && (e.answers[id] == SentTo(s.bound[e.started[id]]) || e.answers[id] == Refused)
  {
    var s := After(prefix, s0, before);
    var e := After(prefix, s, after);
    InitialInv(s0);
    RunKeepsInv(prefix, s0, before);
    RunKeepsInv(prefix, s, after);
    BindingsNeverChange(prefix, s, after, e.started[id]);
    assert EntryOk(s, e.started[id]) && EntryOk(e, e.started[id]) && AnswerOk(e, id, e.answers[id]);
  }

  /** The host that a session was issued for never changes. */
  lemma ServedStays(prefix: string, s: System, step: Step, k: string)
    requires Inv(s) && Enabled(prefix, s, step) && k in s.served
    ensures k in Next(prefix, s, step).served && Next(prefix, s, step).served[k] == s.served[k]
  {
    assert EntryOk(s, k);
    if !step.Serve? {
      if RequestStep(step) {
        RequestsServeNothing(prefix, s, step);
      } else {
        OthersServeNothing(prefix, s, step);
      }
    }
  }

  lemma RequestsServeNothing(prefix: string, s: System, step: Step)
    requires Enabled(prefix, s, step) && RequestStep(step) && !step.Serve?
    ensures Next(prefix, s, step).served == s.served
  {
    if step.Find? {
      FindBindsNothing(prefix, s, step.c, step.id, step.cookie, step.ok);
    } else if step.Send? {
      SendBindsNothing(s, step.c, step.id, step.urlOk);
    }
  }

  lemma OthersServeNothing(prefix: string, s: System, step: Step)
    requires Enabled(prefix, s, step) && !RequestStep(step)
    ensures Next(prefix, s, step).served == s.served
  {
  }

  lemma {:induction false} ServedNeverChanges(prefix: string, s: System, steps: seq<Step>, k: string)
    requires Inv(s) && IsRun(prefix, s, steps) && k in s.served
    ensures k in After(prefix, s, steps).served && After(prefix, s, steps).served[k] == s.served[k]
    decreases |steps|
  {
    if steps != [] {
      StepKeepsInv(prefix, s, steps[0]);
      ServedStays(prefix, s, steps[0], k);
      ServedNeverChanges(prefix, Next(prefix, s, steps[0]), steps[1..], k);
    }
  }

  /** A request without a session is forwarded to the endpoint chosen for it. */
  lemma ServedByTheChosen(prefix: string, s: System, c: nat, host: string, index: nat, id: string)
    requires Inv(s) && Enabled(prefix, s, Serve(c, host, index, Ref(id)))
    ensures var key, s' := NamespacedKey(prefix, id), Next(prefix, s, Serve(c, host, index, Ref(id)));
            key in s'.served && s'.served[key] == s.controllers[c].table[host][index].address
  {
    var e := s.controllers[c].table[host][index];
    assert ControllerOk(s, s.controllers[c]);
    WithProxyMatches(s.controllers[c].proxies, e.address, e.port);
  }

  /** Sticky safety from the first request on, over every run of any number of controllers: a
      session is issued for the endpoint chosen for that request, is never bound to another
      address, and every request that ever carries it goes there or is refused. */
  lemma SessionsReturnToTheirServer(prefix: string, s0: System, before: seq<Step>, c: nat, host: string, index: nat,
                                    session: string, after: seq<Step>, id: nat)
    requires Initial(s0) && IsRun(prefix, s0, before)
    requires Enabled(prefix, After(prefix, s0, before), Serve(c, host, index, Ref(session)))
    requires IsRun(prefix, Next(prefix, After(prefix, s0, before), Serve(c, host, index, Ref(session))), after)
    ensures var s := After(prefix, s0, before);
            var e := After(prefix, Next(prefix, s, Serve(c, host, index, Ref(session))), after);
            var key, address := NamespacedKey(prefix, session), s.controllers[c].table[host][index].address;
            && (key in e.bound ==> e.bound[key] == address)
            && (id in e.started && id in e.answers && e.started[id] == key ==>
                  e.answers[id] == SentTo(address) || e.answers[id] == Refused)
  {
    var s, step := After(prefix, s0, before), Serve(c, host, index, Ref(session));
    var key := NamespacedKey(prefix, session);
    InitialInv(s0);
    RunKeepsInv(prefix, s0, before);
    ServedByTheChosen(prefix, s, c, host, index, session);
    StepKeepsInv(prefix, s, step);
    ServedNeverChanges(prefix, Next(prefix, s, step), after, key);
    RunKeepsInv(prefix, Next(prefix, s, step), after);
    var e := After(prefix, Next(prefix, s, step), after);
    assert EntryOk(e, key);
    assert id in e.answers ==> AnswerOk(e, id, e.answers[id]);
  }

  // ---- What ends a session ---------------------------------------------------

  /** A live session ends only when its hour is over, or when a clean deletes it whose list
      does not hold its address. */
  lemma OnlyUnlistedSessionsAreCleaned(prefix: string, s: System, step: Step, k: string)
    requires Inv(s) && Enabled(prefix, s, step)
    requires k in s.bound && Live(s.db, s.now, k) && !Live(Next(prefix, s, step).db, Next(prefix, s, step).now, k)
    ensures k in s.touched
    ensures || (step.Tick? && s.now + step.d >= s.touched[k] + HOUR)
            || (step.Delete? && step.key == k && s.bound[k] !in s.controllers[step.c].cleaner.listed)
  {
    assert EntryOk(s, k);
    if step.Delete? {
      assert ControllerOk(s, s.controllers[step.c]);
    } else if !step.Tick? {
      PublishesOnce(prefix, s, step);
      OtherStepsKeepSessions(prefix, s, step, k);
    }
  }

  lemma OtherStepsKeepSessions(prefix: string, s: System, step: Step, k: string)
    requires Enabled(prefix, s, step) && !step.Tick? && !step.Delete? && (step.Publish? ==> BindOk(s, step.bind))
    requires EntryOk(s, k) && k in s.bound && Live(s.db, s.now, k)
    ensures Live(Next(prefix, s, step).db, Next(prefix, s, step).now, k)
  {
    match step
    case Refresh(c, id, ok) => TouchKeeps(s, s.controllers[c].requests[id].key, k);
    case _ =>
  }

  lemma TouchKeeps(s: System, key: string, k: string)
    requires Live(s.db, s.now, k)
    ensures Live(Touched(s, key).db, s.now, k)
  {
  }

  /** A refresh gives a live session an hour from now. */
  lemma RefreshRenews(prefix: string, s: System, c: nat, id: nat)
    requires Inv(s) && Enabled(prefix, s, Refresh(c, id, true))
    requires Live(s.db, s.now, s.controllers[c].requests[id].key)
    ensures var k, s' := s.controllers[c].requests[id].key, Next(prefix, s, Refresh(c, id, true));
            && k in s'.db && s'.db[k] == Entry(s.db[k].endpoint, s.now + 3_600_000_000_000)
            && k in s'.touched && s'.touched[k] == s.now
  {
  }

  // ---- A clean that nobody interferes with -----------------------------------

  /** A step of the clean at `c`, whose command does not fail. */
  predicate CleansAt(step: Step, c: nat) {
    match step
    case Read(d, _, ok) => d == c && ok
    case Delete(d, _, ok) => d == c && ok
    case Rest(d) => d == c
    case _ => false
  }

  /** `s` is `s0` in the middle of a clean at `c`: what was found is unread, read, or dealt with,
      and the stale entries among the latter are gone. */
  ghost predicate MidClean(prefix: string, s0: System, s: System, c: nat, listed: seq<string>) {
    && c in s.controllers && s.now == s0.now
    && (forall k :: k in s.db ==> k in s0.db && s.db[k] == s0.db[k])
    && match s.controllers[c].cleaner
       case Resting => CleanedFrom(prefix, s0, s, listed, {})
       case Cleaning(l, unread, entries) =>
         && l == listed && CleanedFrom(prefix, s0, s, listed, unread + entries.Keys)
         && (forall k :: k in unread || k in entries ==> Live(s0.db, s0.now, k) && InNamespace(prefix, k))
         && (forall k :: k in entries ==> entries[k] == s0.db[k].endpoint)
  }

  /** The entries that are gone are the stale ones, but for those still to be dealt with. */
  ghost predicate CleanedFrom(prefix: string, s0: System, s: System, listed: seq<string>, todo: set<string>) {
    forall k :: k in s0.db ==>
      (k in s.db <==> k in todo || !Stale(prefix, s0.db, s0.now, listed, k))
  }

  lemma CleanGoesOn(prefix: string, s0: System, s: System, step: Step, c: nat, listed: seq<string>)
    requires MidClean(prefix, s0, s, c, listed) && Enabled(prefix, s, step) && CleansAt(step, c)
    ensures MidClean(prefix, s0, Next(prefix, s, step), c, listed)
  {
    if step.Read? {
      ReadGoesOn(prefix, s0, s, step.key, c, listed);
    } else if step.Delete? {
      DeleteGoesOn(prefix, s0, s, step.key, c, listed);
    }
  }

  lemma ReadGoesOn(prefix: string, s0: System, s: System, key: string, c: nat, listed: seq<string>)
    requires MidClean(prefix, s0, s, c, listed) && s.controllers[c].cleaner.Cleaning?
    requires key in s.controllers[c].cleaner.unread
    ensures MidClean(prefix, s0, ReadOne(s, c, key, true), c, listed)
  {
    var unread, entries := s.controllers[c].cleaner.unread, s.controllers[c].cleaner.entries;
    var s' := ReadOne(s, c, key, true);
    assert key in s.db;
    assert s'.controllers[c].cleaner.entries == entries[key := s.db[key].endpoint];
    assert unread - {key} + entries[key := s.db[key].endpoint].Keys == unread + entries.Keys;
  }

  lemma DeleteGoesOn(prefix: string, s0: System, s: System, key: string, c: nat, listed: seq<string>)
    requires MidClean(prefix, s0, s, c, listed) && s.controllers[c].cleaner.Cleaning?
    requires s.controllers[c].cleaner.unread == {} && key in s.controllers[c].cleaner.entries
    ensures MidClean(prefix, s0, Deleted(s, c, key, true), c, listed)
  {
  }

  lemma {:induction false} CleanRuns(prefix: string, s0: System, s: System, steps: seq<Step>, c: nat,
                                     listed: seq<string>)
    requires MidClean(prefix, s0, s, c, listed) && IsRun(prefix, s, steps)
    requires forall i :: 0 <= i < |steps| ==> CleansAt(steps[i], c)
    ensures MidClean(prefix, s0, After(prefix, s, steps), c, listed)
    decreases |steps|
  {
    if steps != [] {
      CleanGoesOn(prefix, s0, s, steps[0], c, listed);
      CleanRuns(prefix, s0, Next(prefix, s, steps[0]), steps[1..], c, listed);
    }
  }

  /** A clean that nobody interferes with and whose commands do not fail, in whatever order it
      reads and deletes, removes exactly the stale entries. */
  lemma UndisturbedClean(prefix: string, s: System, c: nat, listed: seq<string>, steps: seq<Step>)
    requires Enabled(prefix, s, Scan(c, listed)) && IsRun(prefix, Next(prefix, s, Scan(c, listed)), steps)
    requires forall i :: 0 <= i < |steps| ==> CleansAt(steps[i], c)
    ensures var e := After(prefix, Next(prefix, s, Scan(c, listed)), steps);
            c in e.controllers && (e.controllers[c].cleaner.Resting? ==> StaleAreGone(prefix, s, e, listed))
  {
    ScanStarts(prefix, s, c, listed);
    var s' := Scanned(prefix, s, c, listed);
    CleanRuns(prefix, s, s', steps, c, listed);
    CleanEnds(prefix, s, After(prefix, s', steps), c, listed);
  }

  /** The database of `e` is that of `s` without the stale entries. */
  ghost predicate StaleAreGone(prefix: string, s: System, e: System, listed: seq<string>) {
    && (forall k :: k in e.db <==> k in s.db && !Stale(prefix, s.db, s.now, listed, k))
    && (forall k :: k in e.db ==> e.db[k] == s.db[k])
  }

  lemma CleanEnds(prefix: string, s0: System, s: System, c: nat, listed: seq<string>)
    requires MidClean(prefix, s0, s, c, listed)
    ensures s.controllers[c].cleaner.Resting? ==> StaleAreGone(prefix, s0, s, listed)
  {
  }

  lemma ScanStarts(prefix: string, s: System, c: nat, listed: seq<string>)
    requires c in s.controllers
    ensures MidClean(prefix, s, Scanned(prefix, s, c, listed), c, listed)
  {
  }

  // ---- Persistence -----------------------------------------------------------

  /** The step lets the hour of `k` not run out, cleans only with its address listed, and
      lets the lookups of `k` and the URLs of their proxies not fail. */
  ghost predicate Attentive(prefix: string, s: System, step: Step, k: string)
    requires k in s.bound && k in s.touched
  {
    match step
    case Tick(d) => s.now + d < s.touched[k] + HOUR
    case Scan(_, listed) => s.bound[k] in listed
    case Find(_, _, _, cookie, ok) => NamespacedKey(prefix, cookie) == k ==> ok
    case Send(_, id, urlOk) => id in s.started && s.started[id] == k ==> urlOk
    case _ => true
  }

  ghost predicate AttentiveRun(prefix: string, s: System, steps: seq<Step>, k: string)
    requires IsRun(prefix, s, steps)
    decreases |steps|
  {
    steps == [] || (
      && k in s.bound && k in s.touched && Attentive(prefix, s, steps[0], k)
      && AttentiveRun(prefix, Next(prefix, s, steps[0]), steps[1..], k))
  }

  /** A clean that could still delete `k` lists the address. */
  ghost predicate SparedBy(cl: Cleaner, k: string, address: string) {
    cl.Cleaning? && (k in cl.unread || k in cl.entries) ==> address in cl.listed
  }

  ghost predicate Spared(s: System, k: string, address: string) {
    forall c :: c in s.controllers ==> SparedBy(s.controllers[c].cleaner, k, address)
  }

  /** The session lives, and nothing under way will end it. */
  ghost predicate Safe(s: System, k: string, address: string) {
    k in s.bound && s.bound[k] == address && Live(s.db, s.now, k) && Spared(s, k, address)
  }

  /** A request has found the address of its session and is not answered yet. */
  ghost predicate Pending(s: System, id: nat, k: string, address: string) {
    exists c :: c in s.controllers && id in s.controllers[c].requests &&
                s.controllers[c].requests[id].key == k && s.controllers[c].requests[id].address == address
  }

  /** The request was sent to the address, or is on its way there. */
  ghost predicate Reaches(s: System, id: nat, k: string, address: string) {
    if id in s.answers then s.answers[id] == SentTo(address) else Pending(s, id, k, address)
  }

  /** All requests with the session, but those that are older, reach the address. */
  ghost predicate AllReach(s: System, older: set<nat>, k: string, address: string) {
    forall id :: id in s.started && id !in older && s.started[id] == k ==> Reaches(s, id, k, address)
  }

  /** A session is safe from the moment it is published, even while cleans with older
      lists are running. */
  lemma PublishedIsSafe(prefix: string, s: System, c: nat, bind: Bind)
    requires Inv(s) && Enabled(prefix, s, Publish(c, bind, true))
    ensures Safe(Next(prefix, s, Publish(c, bind, true)), bind.key, bind.address)
  {
    assert BindOk(s, bind);
    forall d | d in s.controllers ensures CleanerOk(s, s.controllers[d].cleaner) {
      assert ControllerOk(s, s.controllers[d]);
    }
  }

  lemma StaysSafe(prefix: string, s: System, step: Step, k: string, address: string)
    requires Inv(s) && Enabled(prefix, s, step) && k in s.bound && k in s.touched && Attentive(prefix, s, step, k)
    requires Safe(s, k, address)
    ensures Safe(Next(prefix, s, step), k, address)
  {
    var s' := Next(prefix, s, step);
    if !Live(s'.db, s'.now, k) {
      OnlyUnlistedSessionsAreCleaned(prefix, s, step, k);
    }
    PublishesOnce(prefix, s, step);
    BindingStays(prefix, s, step, k);
    StaysSpared(prefix, s, step, k, address);
  }

  lemma StaysSpared(prefix: string, s: System, step: Step, k: string, address: string)
    requires Enabled(prefix, s, step) && Spared(s, k, address) && (step.Scan? ==> address in step.listed)
    ensures Spared(Next(prefix, s, step), k, address)
  {
    var s' := Next(prefix, s, step);
    forall c | c in s'.controllers ensures SparedBy(s'.controllers[c].cleaner, k, address) {
      if CleanStep(step) {
        CleansSpare(prefix, s, step, k, address, c);
      } else if RequestStep(step) {
        RequestsLeaveCleaners(prefix, s, step, c);
      } else {
        OthersLeaveCleaners(prefix, s, step, c);
      }
    }
  }

  lemma CleansSpare(prefix: string, s: System, step: Step, k: string, address: string, c: nat)
    requires Enabled(prefix, s, step) && CleanStep(step) && Spared(s, k, address)
    requires (step.Scan? ==> address in step.listed) && c in Next(prefix, s, step).controllers
    ensures SparedBy(Next(prefix, s, step).controllers[c].cleaner, k, address)
  {
    assert c in s.controllers && SparedBy(s.controllers[c].cleaner, k, address);
  }

  lemma RequestsLeaveCleaners(prefix: string, s: System, step: Step, c: nat)
    requires Enabled(prefix, s, step) && RequestStep(step) && c in Next(prefix, s, step).controllers
    ensures c in s.controllers && Next(prefix, s, step).controllers[c].cleaner == s.controllers[c].cleaner
  {
    if step.Find? {
      FindLeavesCleaners(prefix, s, step.c, step.id, step.cookie, step.ok);
    } else if step.Send? {
      SendLeavesCleaners(s, step.c, step.id, step.urlOk);
    }
  }

  /** `s'` has the controllers of `s`, each with its cleaner as it was. */
  ghost predicate SameCleaners(s: System, s': System) {
    && s'.controllers.Keys == s.controllers.Keys
    && forall c :: c in s.controllers ==> s'.controllers[c].cleaner == s.controllers[c].cleaner
  }

  lemma FindLeavesCleaners(prefix: string, s: System, c: nat, id: nat, cookie: string, ok: bool)
    requires c in s.controllers
    ensures SameCleaners(s, FoundBy(prefix, s, c, id, cookie, ok))
  {
  }

  lemma SendLeavesCleaners(s: System, c: nat, id: nat, urlOk: bool)
    requires c in s.controllers && id in s.controllers[c].requests
    ensures SameCleaners(s, SentOn(s, c, id, urlOk))
  {
  }

  lemma OthersLeaveCleaners(prefix: string, s: System, step: Step, c: nat)
    requires Enabled(prefix, s, step) && !RequestStep(step) && !CleanStep(step)
    requires c in Next(prefix, s, step).controllers
    ensures if c in s.controllers then Next(prefix, s, step).controllers[c].cleaner == s.controllers[c].cleaner
            else Next(prefix, s, step).controllers[c].cleaner.Resting?
  {
  }

  /** A step of another request, of a cleaner or of the clock leaves a pending one alone. */
  lemma StaysPending(prefix: string, s: System, step: Step, id: nat, k: string, address: string)
    requires Inv(s) && Enabled(prefix, s, step) && Pending(s, id, k, address) && !(step.Send? && step.id == id)
    ensures Pending(Next(prefix, s, step), id, k, address)
  {
    var s' := Next(prefix, s, step);
    var c :| c in s.controllers && id in s.controllers[c].requests &&
             s.controllers[c].requests[id].key == k && s.controllers[c].requests[id].address == address;
    assert RequestOk(s, id, s.controllers[c].requests[id]);
    StaysWaiting(prefix, s, step, c, id);
  }

  lemma StaysWaiting(prefix: string, s: System, step: Step, c: nat, id: nat)
    requires Enabled(prefix, s, step) && c in s.controllers && id in s.controllers[c].requests && id in s.started
    requires !(step.Send? && step.id == id)
    ensures StillWaits(s, Next(prefix, s, step), c, id)
  {
    if RequestStep(step) {
      WaitsThroughRequests(prefix, s, step, c, id);
    } else {
      WaitsThroughOthers(prefix, s, step, c, id);
    }
  }

  /** In `s'` the request waits at the controller as in `s`. */
  ghost predicate StillWaits(s: System, s': System, c: nat, id: nat)
    requires c in s.controllers && id in s.controllers[c].requests
  {
    && c in s'.controllers && id in s'.controllers[c].requests
    && s'.controllers[c].requests[id].key == s.controllers[c].requests[id].key
    && s'.controllers[c].requests[id].address == s.controllers[c].requests[id].address
  }

  lemma WaitsThroughRequests(prefix: string, s: System, step: Step, c: nat, id: nat)
    requires Enabled(prefix, s, step) && RequestStep(step) && !(step.Send? && step.id == id)
    requires c in s.controllers && id in s.controllers[c].requests && id in s.started
    ensures StillWaits(s, Next(prefix, s, step), c, id)
  {
    if step.Find? {
      FindWaits(prefix, s, step.c, step.id, step.cookie, step.ok, c, id);
    } else if step.Refresh? {
      RefreshWaits(s, step.c, step.id, step.ok, c, id);
    } else if step.Send? {
      SendWaits(s, step.c, step.id, step.urlOk, c, id);
    }
  }

  lemma FindWaits(prefix: string, s: System, d: nat, other: nat, cookie: string, ok: bool, c: nat, id: nat)
    requires d in s.controllers && c in s.controllers && id in s.controllers[c].requests && other != id
    ensures StillWaits(s, FoundBy(prefix, s, d, other, cookie, ok), c, id)
  {
  }

  lemma RefreshWaits(s: System, d: nat, other: nat, ok: bool, c: nat, id: nat)
    requires d in s.controllers && other in s.controllers[d].requests
    requires c in s.controllers && id in s.controllers[c].requests
    ensures StillWaits(s, Refreshed(s, d, other, ok), c, id)
  {
  }

  lemma SendWaits(s: System, d: nat, other: nat, urlOk: bool, c: nat, id: nat)
    requires d in s.controllers && other in s.controllers[d].requests && other != id
    requires c in s.controllers && id in s.controllers[c].requests
    ensures StillWaits(s, SentOn(s, d, other, urlOk), c, id)
  {
  }

  lemma WaitsThroughOthers(prefix: string, s: System, step: Step, c: nat, id: nat)
    requires Enabled(prefix, s, step) && !RequestStep(step)
    requires c in s.controllers && id in s.controllers[c].requests && id in s.started
    ensures StillWaits(s, Next(prefix, s, step), c, id)
  {
  }

  /** A request that looks up a safe session finds its address. */
  lemma FindReaches(prefix: string, s: System, step: Step, k: string, address: string)
    requires Inv(s) && step.Find? && Enabled(prefix, s, step) && NamespacedKey(prefix, step.cookie) == k && step.ok
    requires Safe(s, k, address) && address != ""
    ensures Reaches(Next(prefix, s, step), step.id, k, address)
  {
    var s' := Next(prefix, s, step);
    assert EntryOk(s, k);
    assert step.id !in s.answers by {
      assert step.id in s.answers ==> AnswerOk(s, step.id, s.answers[step.id]);
    }
    assert step.id in s'.controllers[step.c].requests;
  }

  lemma SendReaches(prefix: string, s: System, step: Step, k: string, address: string)
    requires Inv(s) && step.Send? && Enabled(prefix, s, step) && step.urlOk && Safe(s, k, address)
    requires step.id in s.started && s.started[step.id] == k
    ensures Reaches(Next(prefix, s, step), step.id, k, address)
  {
    SendGoesToItsAddress(s, step.c, step.id, true);
    assert RequestOk(s, step.id, s.controllers[step.c].requests[step.id]);
    assert EntryOk(s, k);
  }

  lemma AttentiveStep(prefix: string, s: System, step: Step, older: set<nat>, k: string, address: string)
    requires Inv(s) && Enabled(prefix, s, step) && k in s.bound && k in s.touched && Attentive(prefix, s, step, k)
    requires Safe(s, k, address) && AllReach(s, older, k, address) && address != ""
    ensures AllReach(Next(prefix, s, step), older, k, address)
  {
    var s' := Next(prefix, s, step);
    forall id | id in s'.started && id !in older && s'.started[id] == k ensures Reaches(s', id, k, address) {
      if Concerns(step, id) {
        OwnStepReaches(prefix, s, step, k, address);
      } else {
        OthersLeaveAlone(prefix, s, step, id);
        StillReaches(prefix, s, step, id, k, address);
      }
    }
  }

  /** The step looks up the session of the request, or sends it. */
  predicate Concerns(step: Step, id: nat) { (step.Find? || step.Send?) && step.id == id }

  lemma OwnStepReaches(prefix: string, s: System, step: Step, k: string, address: string)
    requires Inv(s) && Enabled(prefix, s, step) && (step.Find? || step.Send?) && k in s.bound && k in s.touched
    requires Attentive(prefix, s, step, k) && Safe(s, k, address) && address != ""
    requires step.id in Next(prefix, s, step).started && Next(prefix, s, step).started[step.id] == k
    ensures Reaches(Next(prefix, s, step), step.id, k, address)
  {
    if step.Find? {
      FindReaches(prefix, s, step, k, address);
    } else {
      SendReaches(prefix, s, step, k, address);
    }
  }

  /** Only its own steps start a request or answer it. */
  lemma OthersLeaveAlone(prefix: string, s: System, step: Step, id: nat)
    requires Enabled(prefix, s, step) && !Concerns(step, id)
    ensures SameRequest(s, Next(prefix, s, step), id)
  {
    if step.Find? {
      FindLeavesAlone(prefix, s, step.c, step.id, step.cookie, step.ok, id);
    } else if step.Send? {
      SendLeavesAlone(s, step.c, step.id, step.urlOk, id);
    } else {
      SameRecords(prefix, s, step);
    }
  }

  /** The request was started and answered in both or in neither, and alike. */
  ghost predicate SameRequest(s: System, s': System, id: nat) {
    && (id in s'.started <==> id in s.started) && (id in s.started ==> s'.started[id] == s.started[id])
    && (id in s'.answers <==> id in s.answers) && (id in s.answers ==> s'.answers[id] == s.answers[id])
  }

  lemma FindLeavesAlone(prefix: string, s: System, c: nat, other: nat, cookie: string, ok: bool, id: nat)
    requires c in s.controllers && other != id
    ensures SameRequest(s, FoundBy(prefix, s, c, other, cookie, ok), id)
  {
  }

  lemma SendLeavesAlone(s: System, c: nat, other: nat, urlOk: bool, id: nat)
    requires c in s.controllers && other in s.controllers[c].requests && other != id
    ensures SameRequest(s, SentOn(s, c, other, urlOk), id)
  {
  }

  lemma SameRecords(prefix: string, s: System, step: Step)
    requires Enabled(prefix, s, step) && !step.Find? && !step.Send?
    ensures Next(prefix, s, step).started == s.started && Next(prefix, s, step).answers == s.answers
  {
  }

  lemma StillReaches(prefix: string, s: System, step: Step, id: nat, k: string, address: string)
    requires Inv(s) && Enabled(prefix, s, step) && !Concerns(step, id) && Reaches(s, id, k, address)
    ensures Reaches(Next(prefix, s, step), id, k, address)
  {
    OthersLeaveAlone(prefix, s, step, id);
    if id !in s.answers {
      StaysPending(prefix, s, step, id, k, address);
    }
  }

  /** While its lookups come less than an hour apart and every clean lists its address, a
      session stays, and all its requests reach its address. */
  lemma {:induction false} SessionStays(prefix: string, s: System, steps: seq<Step>, older: set<nat>, k: string,
                                        address: string)
    requires Inv(s) && IsRun(prefix, s, steps) && AttentiveRun(prefix, s, steps, k)
    requires Safe(s, k, address) && AllReach(s, older, k, address) && address != ""
    ensures var e := After(prefix, s, steps); Safe(e, k, address) && AllReach(e, older, k, address)
    decreases |steps|
  {
    if steps != [] {
      StaysSafe(prefix, s, steps[0], k, address);
      AttentiveStep(prefix, s, steps[0], older, k, address);
      StepKeepsInv(prefix, s, steps[0]);
      SessionStays(prefix, Next(prefix, s, steps[0]), steps[1..], older, k, address);
    }
  }

  /** Sticky persistence: from the moment a session is published, in every run that keeps its
      lookups less than an hour apart and its address in every list passed to Clean, the
      session lives on, and each request that carries it, at any controller and interleaved
      with anything, is on its way to its address or was sent there; none is refused. */
  lemma StickyPersistence(prefix: string, s0: System, before: seq<Step>, c: nat, bind: Bind, after: seq<Step>, id: nat)
    requires Initial(s0) && IsRun(prefix, s0, before) && bind.address != ""
    requires Enabled(prefix, After(prefix, s0, before), Publish(c, bind, true))
    requires var s := Next(prefix, After(prefix, s0, before), Publish(c, bind, true));
             IsRun(prefix, s, after) && AttentiveRun(prefix, s, after, bind.key)
    ensures var s := Next(prefix, After(prefix, s0, before), Publish(c, bind, true));
            var e := After(prefix, s, after);
            && bind.key in s.served && bind.address == s.served[bind.key]
            && Live(e.db, e.now, bind.key) && e.db[bind.key].endpoint == bind.address
            && (id in e.started && id !in s.started && e.started[id] == bind.key ==>
                  Reaches(e, id, bind.key, bind.address))
  {
    var s' := After(prefix, s0, before);
    var s := Next(prefix, s', Publish(c, bind, true));
    InitialInv(s0);
    RunKeepsInv(prefix, s0, before);
    PublishedIsSafe(prefix, s', c, bind);
    StepKeepsInv(prefix, s', Publish(c, bind, true));
    SessionStays(prefix, s, after, s.started.Keys, bind.key, bind.address);
    RunKeepsInv(prefix, s, after);
    assert EntryOk(s, bind.key) && EntryOk(After(prefix, s, after), bind.key);
  }

  /** A pending request is never stuck: refreshed if need be, it can be sent, and then it
      went to its address. */
  lemma PendingCanBeSent(prefix: string, s: System, c: nat, id: nat) returns (steps: seq<Step>)
    requires Inv(s) && c in s.controllers && id in s.controllers[c].requests
    ensures IsRun(prefix, s, steps) && id in After(prefix, s, steps).answers
    ensures After(prefix, s, steps).answers[id] == SentTo(s.controllers[c].requests[id].address)
  {
    if s.controllers[c].requests[id].refreshed {
      SendingEnds(prefix, s, c, id);
      steps := [Send(c, id, true)];
    } else {
      RefreshStep(s, c, id, true);
      SendingEnds(prefix, Refreshed(s, c, id, true), c, id);
      StepBefore(prefix, s, Refresh(c, id, true), [Send(c, id, true)]);
      steps := [Refresh(c, id, true)] + [Send(c, id, true)];
    }
  }

  lemma StepBefore(prefix: string, s: System, step: Step, rest: seq<Step>)
    requires Enabled(prefix, s, step) && IsRun(prefix, Next(prefix, s, step), rest)
    ensures IsRun(prefix, s, [step] + rest)
    ensures After(prefix, s, [step] + rest) == After(prefix, Next(prefix, s, step), rest)
  {
    assert ([step] + rest)[1..] == rest;
  }

  lemma SendingEnds(prefix: string, s: System, c: nat, id: nat)
    requires Inv(s) && c in s.controllers && id in s.controllers[c].requests && s.controllers[c].requests[id].refreshed
    ensures var steps := [Send(c, id, true)];
            && IsRun(prefix, s, steps) && id in After(prefix, s, steps).answers
            && After(prefix, s, steps).answers[id] == SentTo(s.controllers[c].requests[id].address)
  {
    SendGoesToItsAddress(s, c, id, true);
    StepBefore(prefix, s, Send(c, id, true), []);
    assert [Send(c, id, true)] + [] == [Send(c, id, true)];
  }
}
