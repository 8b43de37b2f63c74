/** Ingresses with equal creation times are listed in cache order, which is arbitrary. This
    module says exactly when that can make an unchanged store cause a reload. */
module Ties {
  import opened Go
  import opened Sets
  import opened Types
  import opened Sorting
  import opened Builder
  import opened Store

  // ---- Equal configurations, host by host ------------------------------------

  ghost predicate ServersEqual(m1: map<string, Ptr<Backend>>, m2: map<string, Ptr<Backend>>) {
    m1.Keys == m2.Keys && forall h :: h in m1 ==> BackendEqual(m1[h], m2[h])
  }

  lemma PointwiseIsSame(s: seq<Ptr<ConfigurationBackend>>, t: seq<Ptr<ConfigurationBackend>>)
    requires |s| == |t| && forall i :: 0 <= i < |s| ==> ConfigurationBackendEqual(s[i], t[i])
    ensures Same(Elems(s), Elems(t), ConfigurationBackendEqual)
  {
    ConfigurationBackendEqualIsEquivalence();
    var p: seq<nat> := seq(|s|, i requires 0 <= i < |s| => i);
    assert Bijection(s, t, ConfigurationBackendEqual, p);
    GreedyIsComplete(s, t, ConfigurationBackendEqual);
  }

  /** The same hosts in the same order, with other servers. */
  ghost function Relabelled(s: seq<Ptr<ConfigurationBackend>>,
                            m: map<string, Ptr<Backend>>): (t: seq<Ptr<ConfigurationBackend>>)
    requires forall i :: 0 <= i < |s| ==> s[i].Ref? && s[i].v.hostname in m
    ensures |t| == |s|
    ensures forall i :: 0 <= i < |s| ==> t[i] == Ref(ConfigurationBackend(m[s[i].v.hostname], s[i].v.hostname))
  {
    seq(|s|, i requires 0 <= i < |s| => Ref(ConfigurationBackend(m[s[i].v.hostname], s[i].v.hostname)))
  }

  lemma RelabelledEntries(s: seq<Ptr<ConfigurationBackend>>, m1: map<string, Ptr<Backend>>,
                          m2: map<string, Ptr<Backend>>)
    requires Entries(s, m1, m1.Keys) && ServersEqual(m1, m2)
    ensures Entries(Relabelled(s, m2), m2, m2.Keys)
  {
    var t := Relabelled(s, m2);
    assert forall i :: 0 <= i < |s| ==> t[i].v.hostname == s[i].v.hostname;
    forall h | h in m2.Keys ensures HasEntry(t, h) {
      assert HasEntry(s, h);
      var i :| 0 <= i < |s| && s[i].Ref? && s[i].v.hostname == h;
      assert t[i].v.hostname == h;
    }
  }

  lemma RelabelledConfiguration(c1: Configuration, m1: map<string, Ptr<Backend>>, m2: map<string, Ptr<Backend>>)
    returns (c: Configuration)
    requires ConfigurationOf(c1, m1) && ServersEqual(m1, m2)
    ensures ConfigurationOf(c, m2) && ConfigurationEqual(Ref(c1), Ref(c))
  {
    assert m1 == map[] <==> m1.Keys == {};
    assert m2 == map[] <==> m2.Keys == {};
    if m1 == map[] {
      c := c1;
    } else {
      RelabelledEntries(c1.services.s, m1, m2);
      RelabelledIsSame(c1.services.s, m1, m2);
      c := Configuration(Elems(Relabelled(c1.services.s, m2)));
    }
  }

  lemma RelabelledIsSame(s: seq<Ptr<ConfigurationBackend>>, m1: map<string, Ptr<Backend>>,
                         m2: map<string, Ptr<Backend>>)
    requires Entries(s, m1, m1.Keys) && ServersEqual(m1, m2)
    ensures Same(Elems(s), Elems(Relabelled(s, m2)), ConfigurationBackendEqual)
  {
    PointwiseIsSame(s, Relabelled(s, m2));
  }

  lemma EqualServersGiveEqual(c1: Configuration, c2: Configuration, m1: map<string, Ptr<Backend>>,
                              m2: map<string, Ptr<Backend>>)
    requires ConfigurationOf(c1, m1) && ConfigurationOf(c2, m2) && ServersEqual(m1, m2)
    ensures ConfigurationEqual(Ref(c1), Ref(c2))
  {
    var c := RelabelledConfiguration(c1, m1, m2);
    IterationOrderDoesNotShow(c, c2, m2);
    ConfigurationEqualLaws(Ref(c1), Ref(c), Ref(c2));
  }

  lemma EqualGivesEqualServer(c1: Configuration, c2: Configuration, m1: map<string, Ptr<Backend>>,
                              m2: map<string, Ptr<Backend>>, h: string)
    requires ConfigurationOf(c1, m1) && ConfigurationOf(c2, m2) && ConfigurationEqual(Ref(c1), Ref(c2)) && h in m1
    ensures h in m2 && BackendEqual(m1[h], m2[h])
  {
    var s, t := c1.services.s, c2.services.Seq();
    var k :| 0 <= k < |s| && s[k].v.hostname == h;
    var j := MatchedEntry(s, t, k);
    assert t[j].Ref? && t[j].v.backend == m2[t[j].v.hostname];
  }

  /** Two generated configurations are equal exactly when their server maps are, host by host. */
  lemma EqualIffServersEqual(c1: Configuration, c2: Configuration, m1: map<string, Ptr<Backend>>,
                             m2: map<string, Ptr<Backend>>)
    requires ConfigurationOf(c1, m1) && ConfigurationOf(c2, m2)
    ensures ConfigurationEqual(Ref(c1), Ref(c2)) <==> ServersEqual(m1, m2)
  {
    if ServersEqual(m1, m2) {
      EqualServersGiveEqual(c1, c2, m1, m2);
    }
    if ConfigurationEqual(Ref(c1), Ref(c2)) {
      ConfigurationEqualLaws(Ref(c1), Ref(c2), Ref(c1));
      forall h | h in m1 ensures h in m2 && BackendEqual(m1[h], m2[h]) {
        EqualGivesEqualServer(c1, c2, m1, m2, h);
      }
      forall h | h in m2 ensures h in m1 {
        EqualGivesEqualServer(c2, c1, m2, m1, h);
      }
    }
  }

  // ---- The rule that decides, ingress by ingress -----------------------------

  /** The first rule of the ingress for a host. */
  ghost function FirstIn(ing: Ingress, host: string): (j: nat)
    requires Names(ing, host)
    ensures j < |ing.rules| && ing.rules[j].host == host && forall k :: 0 <= k < j ==> ing.rules[k].host != host
  {
    FirstFrom(ing, host, 0)
  }

  ghost function FirstFrom(ing: Ingress, host: string, from: nat): (j: nat)
    requires exists j :: from <= j < |ing.rules| && ing.rules[j].host == host
    ensures from <= j < |ing.rules| && ing.rules[j].host == host
    ensures forall k :: from <= k < j ==> ing.rules[k].host != host
    decreases |ing.rules| - from
  {
    if ing.rules[from].host == host then from else FirstFrom(ing, host, from + 1)
  }

  ghost function FirstTarget(ing: Ingress, host: string): Target
    requires Usable(ing) && Names(ing, host)
  {
    RuleOf(ing, FirstIn(ing, host)).target
  }

  /** Some rule of the ingress has the upstream name. */
  ghost predicate Uses(ing: Ingress, name: string) {
    Usable(ing) && exists j :: 0 <= j < |ing.rules| && RuleOf(ing, j).target.Upstream() == name
  }

  /** The last rule of the ingress with an upstream name. */
  ghost function LastIn(ing: Ingress, name: string, n: nat): (j: nat)
    requires Usable(ing) && n <= |ing.rules| && exists j :: 0 <= j < n && RuleOf(ing, j).target.Upstream() == name
    ensures j < n && RuleOf(ing, j).target.Upstream() == name
    ensures forall k :: j < k < n ==> RuleOf(ing, k).target.Upstream() != name
  {
    if RuleOf(ing, n - 1).target.Upstream() == name then n - 1 else LastIn(ing, name, n - 1)
  }

  ghost function LastTarget(ing: Ingress, name: string): Target
    requires Uses(ing, name)
  {
    RuleOf(ing, LastIn(ing, name, |ing.rules|)).target
  }

  /** `rules` is `before`, followed by the rules of the ingress. */
  ghost predicate Follows(rules: seq<HostRule>, before: seq<HostRule>, ing: Ingress)
    requires Usable(ing)
  {
    && before <= rules && |rules| == |before| + |ing.rules|
    && forall j :: 0 <= j < |ing.rules| ==> rules[|before| + j] == RuleOf(ing, j)
  }

  lemma RulesFollow(ings: seq<Ingress>, n: nat)
    requires AllUsable(ings) && n < |ings|
    ensures Follows(Rules(ings[..n + 1]), Rules(ings[..n]), ings[n])
  {
    RulesStep(ings, n);
    AppendKeeps(Rules(ings[..n]), ings[n], |ings[n].rules|);
  }

  /** The first rule for the host routes to `t`. */
  ghost predicate StartsAt(rules: seq<HostRule>, host: string, t: Target) {
    exists f: nat :: f < |rules| && IsFirst(rules, host, f) && rules[f].target == t
  }

  lemma StartsBefore(before: seq<HostRule>, ing: Ingress, host: string, rules: seq<HostRule>, t: Target)
    requires Usable(ing) && Follows(rules, before, ing) && StartsAt(before, host, t)
    ensures StartsAt(rules, host, t)
  {
    var f: nat :| f < |before| && IsFirst(before, host, f) && before[f].target == t;
    assert forall k :: 0 <= k < |before| ==> rules[k] == before[k];
    assert IsFirst(rules, host, f);
  }

  lemma StartsInside(before: seq<HostRule>, ing: Ingress, host: string, rules: seq<HostRule>)
    requires Usable(ing) && Follows(rules, before, ing) && Names(ing, host) && IsFirst(before, host, |before|)
    ensures StartsAt(rules, host, FirstTarget(ing, host))
  {
    var j := FirstIn(ing, host);
    var f := |before| + j;
    assert rules[f] == RuleOf(ing, j);
    forall k | 0 <= k < f ensures rules[k].host != host {
      if k < |before| {
        assert rules[k] == before[k];
      } else {
        assert rules[|before| + (k - |before|)] == RuleOf(ing, k - |before|);
      }
    }
    assert IsFirst(rules, host, f);
  }

  lemma {:induction false} StartsUpTo(ings: seq<Ingress>, i: nat, n: nat, host: string)
    requires AllUsable(ings) && i < n <= |ings| && Names(ings[i], host)
    requires forall k :: 0 <= k < i ==> !Names(ings[k], host)
    ensures StartsAt(Rules(ings[..n]), host, FirstTarget(ings[i], host))
    decreases n
  {
    var last := n - 1;
    RulesFollow(ings, last);
    if i < last {
      StartsUpTo(ings, i, last, host);
      StartsBefore(Rules(ings[..last]), ings[last], host, Rules(ings[..n]), FirstTarget(ings[i], host));
    } else {
      NamedIff(ings[..last], host);
      StartsInside(Rules(ings[..last]), ings[last], host, Rules(ings[..n]));
    }
  }

  /** The first ingress that names a host decides the rule the host is routed by. */
  lemma FirstRuleFrom(ings: seq<Ingress>, i: nat, host: string)
    requires AllUsable(ings) && i < |ings| && Names(ings[i], host)
    requires forall k :: 0 <= k < i ==> !Names(ings[k], host)
    ensures var rules := Rules(ings); var f := FirstFor(rules, host);
            f < |rules| && rules[f].target == FirstTarget(ings[i], host)
  {
    StartsUpTo(ings, i, |ings|, host);
    assert ings[..|ings|] == ings;
    StartIsFirstFor(Rules(ings), host, FirstTarget(ings[i], host));
  }

  lemma StartIsFirstFor(rules: seq<HostRule>, host: string, t: Target)
    requires StartsAt(rules, host, t)
    ensures FirstFor(rules, host) < |rules| && rules[FirstFor(rules, host)].target == t
  {
    var f: nat :| f < |rules| && IsFirst(rules, host, f) && rules[f].target == t;
    FirstIsUnique(rules, host, f);
  }

  ghost predicate HasNamed(rules: seq<HostRule>, name: string) {
    exists k :: 0 <= k < |rules| && rules[k].target.Upstream() == name
  }

  /** The last rule with the name routes to `t`. */
  ghost predicate EndsAt(rules: seq<HostRule>, name: string, t: Target) {
    exists l: nat :: IsLast(rules, name, l) && rules[l].target == t
  }

  lemma EndsInside(before: seq<HostRule>, ing: Ingress, name: string, rules: seq<HostRule>)
    requires Usable(ing) && Uses(ing, name) && Follows(rules, before, ing)
    ensures EndsAt(rules, name, LastTarget(ing, name))
  {
    var j := LastIn(ing, name, |ing.rules|);
    assert rules[|before| + j] == RuleOf(ing, j);
    forall k | |before| + j < k < |rules| ensures rules[k].target.Upstream() != name {
      assert rules[|before| + (k - |before|)] == RuleOf(ing, k - |before|);
    }
    assert IsLast(rules, name, |before| + j);
  }

  lemma EndsBefore(before: seq<HostRule>, ing: Ingress, name: string, rules: seq<HostRule>, t: Target)
    requires Usable(ing) && !Uses(ing, name) && EndsAt(before, name, t) && Follows(rules, before, ing)
    ensures EndsAt(rules, name, t)
  {
    var l: nat :| IsLast(before, name, l) && before[l].target == t;
    assert rules[l] == before[l];
    forall k | l < k < |rules| ensures rules[k].target.Upstream() != name {
      if k < |before| {
        assert rules[k] == before[k];
      } else {
        assert rules[|before| + (k - |before|)] == RuleOf(ing, k - |before|);
      }
    }
    assert IsLast(rules, name, l);
  }

  lemma {:induction false} EndsUpTo(ings: seq<Ingress>, i: nat, n: nat, name: string)
    requires AllUsable(ings) && i < n <= |ings| && Uses(ings[i], name)
    requires forall k :: i < k < |ings| ==> !Uses(ings[k], name)
    ensures EndsAt(Rules(ings[..n]), name, LastTarget(ings[i], name))
    decreases n
  {
    var last := n - 1;
    RulesFollow(ings, last);
    if i < last {
      EndsUpTo(ings, i, last, name);
      EndsBefore(Rules(ings[..last]), ings[last], name, Rules(ings[..n]), LastTarget(ings[i], name));
    } else {
      EndsInside(Rules(ings[..last]), ings[last], name, Rules(ings[..n]));
    }
  }

  /** The last ingress that uses an upstream name decides the backend of that name. */
  lemma LastRuleFrom(ings: seq<Ingress>, i: nat, name: string)
    requires AllUsable(ings) && i < |ings| && Uses(ings[i], name)
    requires forall k :: i < k < |ings| ==> !Uses(ings[k], name)
    ensures var rules := Rules(ings);
            HasNamed(rules, name) && rules[LastNamed(rules, name)].target == LastTarget(ings[i], name)
  {
    EndsUpTo(ings, i, |ings|, name);
    assert ings[..|ings|] == ings;
    EndIsLastNamed(Rules(ings), name, LastTarget(ings[i], name));
  }

  lemma EndIsLastNamed(rules: seq<HostRule>, name: string, t: Target)
    requires EndsAt(rules, name, t)
    ensures HasNamed(rules, name) && rules[LastNamed(rules, name)].target == t
  {
    var l: nat :| IsLast(rules, name, l) && rules[l].target == t;
    assert HasNamed(rules, name);
    LastIsUnique(rules, name, l, LastNamed(rules, name));
  }

  lemma LastIsUnique(rules: seq<HostRule>, name: string, l: nat, m: nat)
    requires IsLast(rules, name, l) && IsLast(rules, name, m)
    ensures l == m
  {
  }

  /** The backend of a host, from the first ingress that names it and the last one that uses
      the upstream name which that one gives it. */
  lemma HostBackend(snap: Snapshot, ings: seq<Ingress>, i: nat, m: nat, host: string)
    requires AllUsable(ings) && i < |ings| && m < |ings| && host != "" && Names(ings[i], host)
    requires forall k :: 0 <= k < i ==> !Names(ings[k], host)
    requires Uses(ings[m], FirstTarget(ings[i], host).Upstream())
    requires forall k :: m < k < |ings| ==> !Uses(ings[k], FirstTarget(ings[i], host).Upstream())
    ensures var servers := ServerMap(snap, Rules(ings));
            && host in servers
            && servers[host] == Ref(BackendFor(snap, LastTarget(ings[m], FirstTarget(ings[i], host).Upstream())))
  {
    FirstRuleFrom(ings, i, host);
    LastRuleFrom(ings, m, FirstTarget(ings[i], host).Upstream());
    ServerOfHost(snap, Rules(ings), host);
  }

  // ---- Which ingresses can come first and last -------------------------------

  ghost predicate Held(derived: Derived, x: Ingress) {
    IngressKey(x) in derived && derived[IngressKey(x)] == x
  }

  /** No ingress that names the host is older. */
  ghost predicate EarliestFor(derived: Derived, host: string, x: Ingress) {
    Held(derived, x) && Names(x, host) && forall y :: Held(derived, y) && Names(y, host) ==> x.created <= y.created
  }

  /** No ingress that uses the upstream name is younger. */
  ghost predicate LatestFor(derived: Derived, name: string, x: Ingress) {
    Held(derived, x) && Uses(x, name) && forall y :: Held(derived, y) && Uses(y, name) ==> y.created <= x.created
  }

  lemma HeldIff(listing: seq<Ingress>, derived: Derived, x: Ingress)
    requires Lists(listing, derived)
    ensures x in InOrder(listing) <==> Held(derived, x)
  {
    InOrderSorts(listing);
    ListedIff(listing, derived, x);
    if x in listing {
      SameElements(listing, InOrder(listing), x);
    }
    if x in InOrder(listing) {
      SameElements(InOrder(listing), listing, x);
    }
  }

  lemma OrderUsable(listing: seq<Ingress>, derived: Derived)
    requires Lists(listing, derived) && Keyed(derived)
    ensures AllUsable(InOrder(listing))
  {
    forall i | 0 <= i < |InOrder(listing)| ensures Usable(InOrder(listing)[i]) {
      HeldIff(listing, derived, InOrder(listing)[i]);
    }
  }

  /** The first ingress of an order that names a host. */
  lemma {:induction false} FirstNaming(ings: seq<Ingress>, host: string) returns (i: nat)
    requires exists k :: 0 <= k < |ings| && Names(ings[k], host)
    ensures i < |ings| && Names(ings[i], host) && forall k :: 0 <= k < i ==> !Names(ings[k], host)
  {
    i := 0;
    while !Names(ings[i], host)
      invariant i < |ings| && forall k :: 0 <= k < i ==> !Names(ings[k], host)
      decreases |ings| - i
    {
      i := i + 1;
    }
  }

  lemma {:induction false} LastUsing(ings: seq<Ingress>, name: string) returns (m: nat)
    requires exists k :: 0 <= k < |ings| && Uses(ings[k], name)
    ensures m < |ings| && Uses(ings[m], name) && forall k :: m < k < |ings| ==> !Uses(ings[k], name)
  {
    m := |ings| - 1;
    while !Uses(ings[m], name)
      invariant m < |ings| && forall k :: m < k < |ings| ==> !Uses(ings[k], name)
      decreases m
    {
      m := m - 1;
    }
  }

  lemma FirstIsEarliest(derived: Derived, listing: seq<Ingress>, i: nat, host: string)
    requires Lists(listing, derived) && i < |InOrder(listing)| && Names(InOrder(listing)[i], host)
    requires forall k :: 0 <= k < i ==> !Names(InOrder(listing)[k], host)
    ensures EarliestFor(derived, host, InOrder(listing)[i])
  {
    var ings := InOrder(listing);
    HeldIff(listing, derived, ings[i]);
    forall y | Held(derived, y) && Names(y, host) ensures ings[i].created <= y.created {
      HeldIff(listing, derived, y);
      var k :| 0 <= k < |ings| && ings[k] == y;
      OrderedByTime(listing, i, k);
    }
  }

  lemma LastIsLatest(derived: Derived, listing: seq<Ingress>, m: nat, name: string)
    requires Lists(listing, derived) && m < |InOrder(listing)| && Uses(InOrder(listing)[m], name)
    requires forall k :: m < k < |InOrder(listing)| ==> !Uses(InOrder(listing)[k], name)
    ensures LatestFor(derived, name, InOrder(listing)[m])
  {
    var ings := InOrder(listing);
    HeldIff(listing, derived, ings[m]);
    forall y | Held(derived, y) && Uses(y, name) ensures y.created <= ings[m].created {
      HeldIff(listing, derived, y);
      var k :| 0 <= k < |ings| && ings[k] == y;
      OrderedByTime(listing, k, m);
    }
  }

  lemma OrderedByTime(listing: seq<Ingress>, k: nat, m: nat)
    requires k < |InOrder(listing)| && m < |InOrder(listing)|
    ensures k <= m ==> InOrder(listing)[k].created <= InOrder(listing)[m].created
  {
    InOrderSorts(listing);
    assert k < m ==> !Earlier(InOrder(listing)[m], InOrder(listing)[k]);
  }

  /** Whatever the order, a host is routed by one of the earliest ingresses that name it, to
      the backend of one of the latest that use the upstream name. */
  lemma Decided(snap: Snapshot, derived: Derived, listing: seq<Ingress>, host: string) returns (x: Ingress, y: Ingress)
    requires Keyed(derived) && Lists(listing, derived) && AllUsable(InOrder(listing))
    requires host in ServerMap(snap, Rules(InOrder(listing)))
    ensures host != "" && EarliestFor(derived, host, x) && Usable(x) &&
            LatestFor(derived, FirstTarget(x, host).Upstream(), y)
    ensures ServerMap(snap, Rules(InOrder(listing)))[host] ==
            Ref(BackendFor(snap, LastTarget(y, FirstTarget(x, host).Upstream())))
  {
    var ings := InOrder(listing);
    ServerOfHost(snap, Rules(ings), host);
    NamedIff(ings, host);
    var i := FirstNaming(ings, host);
    x := ings[i];
    var name := FirstTarget(x, host).Upstream();
    assert Uses(x, name);
    var m := LastUsing(ings, name);
    y := ings[m];
    HostBackend(snap, ings, i, m, host);
    FirstIsEarliest(derived, listing, i, host);
    LastIsLatest(derived, listing, m, name);
  }

  // ---- Any of the tied ingresses can ------------------------------------------

  /** Everything in front of `x`, which lies at `i`, is strictly earlier. */
  ghost predicate FirstOfTies(s: seq<Ingress>, i: nat, x: Ingress) {
    i < |s| && s[i] == x && forall k :: 0 <= k < i ==> Earlier(s[k], x)
  }

  ghost predicate LastOfTies(s: seq<Ingress>, i: nat, x: Ingress) {
    i < |s| && s[i] == x && forall k :: i < k < |s| ==> Earlier(x, s[k])
  }

  lemma {:induction false} InsertBehindFirst(y: Ingress, s: seq<Ingress>, i: nat, x: Ingress) returns (j: nat)
    requires FirstOfTies(s, i, x)
    ensures FirstOfTies(Insert(y, s, Earlier), j, x)
  {
    var n := |s| - 1;
    if !Earlier(y, s[n]) {
      j := i;
    } else if i < n {
      j := InsertBehindFirst(y, s[..n], i, x);
    } else {
      InsertedAreEarlier(y, s[..n], x);
      j := |Insert(y, s[..n], Earlier)|;
    }
  }

  lemma InsertedAreEarlier(y: Ingress, s: seq<Ingress>, x: Ingress)
    requires Earlier(y, x) && forall k :: 0 <= k < |s| ==> Earlier(s[k], x)
    ensures forall k :: 0 <= k < |Insert(y, s, Earlier)| ==> Earlier(Insert(y, s, Earlier)[k], x)
  {
    var t := Insert(y, s, Earlier);
    InsertKeepsElements(y, s, Earlier);
    forall k | 0 <= k < |t| ensures Earlier(t[k], x) {
      assert t[k] in multiset(t);
    }
  }

  /** The front of the listing stays in front of its ties. */
  lemma {:induction false} FrontIsFirst(x: Ingress, rest: seq<Ingress>) returns (i: nat)
    ensures FirstOfTies(InOrder([x] + rest), i, x)
  {
    var s := [x] + rest;
    if rest == [] {
      assert s[..0] == [] && InOrder([]) == [] && InOrder(s) == [x];
      i := 0;
    } else {
      var n := |rest| - 1;
      assert s[..|s| - 1] == [x] + rest[..n] && s[|s| - 1] == rest[n];
      i := FrontIsFirst(x, rest[..n]);
      i := InsertBehindFirst(rest[n], InOrder([x] + rest[..n]), i, x);
    }
  }

  lemma {:induction false} InsertedIsLast(x: Ingress, s: seq<Ingress>) returns (i: nat)
    ensures LastOfTies(Insert(x, s, Earlier), i, x)
  {
    if s == [] || !Earlier(x, s[|s| - 1]) {
      i := |s|;
    } else {
      i := InsertedIsLast(x, s[..|s| - 1]);
    }
  }

  lemma ListedInFront(listing: seq<Ingress>, rest: Derived, x: Ingress)
    requires Lists(listing, rest) && IngressKey(x) !in rest
    ensures Lists([x] + listing, rest[IngressKey(x) := x])
  {
    var longer, more := [x] + listing, rest[IngressKey(x) := x];
    OnlyMore(listing, longer, rest, x);
    OnceInFront(listing, rest, x);
    forall j | j in more ensures ListsKey(longer, j) {
      if j == IngressKey(x) {
        assert longer[0] == x;
      } else {
        ListedStays(listing, [x], [], j);
        assert [x] + listing + [] == longer;
      }
    }
  }

  lemma OnceInFront(listing: seq<Ingress>, rest: Derived, x: Ingress)
    requires ListsOnly(listing, rest) && ListsOnce(listing) && IngressKey(x) !in rest
    ensures ListsOnce([x] + listing)
  {
    var longer := [x] + listing;
    forall i, j | 0 <= i < j < |longer| ensures IngressKey(longer[i]) != IngressKey(longer[j]) {
      assert longer[j] == listing[j - 1];
      assert i > 0 ==> longer[i] == listing[i - 1];
    }
  }

  /** Some listing puts `x` in front of its ties, and some puts it behind them. */
  lemma TiedListings(derived: Derived, x: Ingress) returns (front: seq<Ingress>, i: nat, back: seq<Ingress>, m: nat)
    requires Keyed(derived) && Held(derived, x)
    ensures Lists(front, derived) && FirstOfTies(InOrder(front), i, x)
    ensures Lists(back, derived) && LastOfTies(InOrder(back), m, x)
  {
    var less := derived - {IngressKey(x)};
    var rest := ListingExists(less);
    front, back := [x] + rest, rest + [x];
    ListedInFront(rest, less, x);
    i := FrontIsFirst(x, rest);
    OneMoreListed(rest, less, IngressKey(x), x);
    assert less[IngressKey(x) := x] == derived;
    assert back[..|back| - 1] == rest;
    m := InsertedIsLast(x, InOrder(rest));
  }

  /** Any of the earliest ingresses can be the one a host is routed by. */
  lemma CanComeFirst(snap: Snapshot, derived: Derived, host: string, x: Ingress) returns (listing: seq<Ingress>)
    requires Keyed(derived) && host != "" && EarliestFor(derived, host, x)
    ensures Lists(listing, derived) && AllUsable(InOrder(listing)) && host in ServerMap(snap, Rules(InOrder(listing)))
    ensures var b := ServerMap(snap, Rules(InOrder(listing)))[host];
            b.Ref? && b.v.name == FirstTarget(x, host).Upstream()
  {
    var i, back, m;
    listing, i, back, m := TiedListings(derived, x);
    OrderUsable(listing, derived);
    var ings := InOrder(listing);
    forall k | 0 <= k < i ensures !Names(ings[k], host) {
      HeldIff(listing, derived, ings[k]);
    }
    FirstRuleFrom(ings, i, host);
    ServerOfHost(snap, Rules(ings), host);
  }

  /** Any of the latest ingresses can be the one an upstream is made of. */
  lemma CanComeLast(snap: Snapshot, derived: Derived, host: string, name: string, x: Ingress)
    returns (listing: seq<Ingress>)
    requires Keyed(derived) && host != "" && LatestFor(derived, name, x)
    requires exists z :: EarliestFor(derived, host, z)
    requires forall z :: EarliestFor(derived, host, z) ==> Usable(z) && FirstTarget(z, host).Upstream() == name
    ensures Lists(listing, derived) && AllUsable(InOrder(listing)) && host in ServerMap(snap, Rules(InOrder(listing)))
    ensures ServerMap(snap, Rules(InOrder(listing)))[host] == Ref(BackendFor(snap, LastTarget(x, name)))
  {
    var front, j, m;
    front, j, listing, m := TiedListings(derived, x);
    OrderUsable(listing, derived);
    var ings := InOrder(listing);
    forall k | m < k < |ings| ensures !Uses(ings[k], name) {
      HeldIff(listing, derived, ings[k]);
    }
    var z :| EarliestFor(derived, host, z);
    HeldIff(listing, derived, z);
    var i := FirstNaming(ings, host);
    FirstIsEarliest(derived, listing, i, host);
    HostBackend(snap, ings, i, m, host);
  }

  // ---- When an unchanged store can cause a reload ----------------------------

  /** All earliest ingresses for a host give it one upstream name. */
  ghost predicate OneFirstName(derived: Derived, host: string)
    requires Keyed(derived)
  {
    forall x, y :: EarliestFor(derived, host, x) && EarliestFor(derived, host, y) ==>
      FirstTarget(x, host).Upstream() == FirstTarget(y, host).Upstream()
  }

  /** All latest ingresses that use an upstream name make equal backends of it. */
  ghost predicate OneLastBackend(snap: Snapshot, derived: Derived, name: string) {
    forall x, y :: LatestFor(derived, name, x) && LatestFor(derived, name, y) ==>
      BackendEqual(Ref(BackendFor(snap, LastTarget(x, name))), Ref(BackendFor(snap, LastTarget(y, name))))
  }

  ghost predicate TiesAreHarmless(snap: Snapshot, derived: Derived)
    requires Keyed(derived)
  {
    forall host, x :: host != "" && EarliestFor(derived, host, x) ==>
      OneFirstName(derived, host) && OneLastBackend(snap, derived, FirstTarget(x, host).Upstream())
  }

  /** No two configurations that this store can generate differ. */
  ghost predicate NeverReloads(snap: Snapshot, derived: Derived) {
    forall l1, l2, c1, c2 :: Generated(snap, derived, l1, c1) && Generated(snap, derived, l2, c2) ==>
      ConfigurationEqual(Ref(c1), Ref(c2))
  }

  lemma SameHosts(snap: Snapshot, derived: Derived, l1: seq<Ingress>, l2: seq<Ingress>, host: string)
    requires Lists(l1, derived) && Lists(l2, derived) && AllUsable(InOrder(l1)) && AllUsable(InOrder(l2))
    requires host in ServerMap(snap, Rules(InOrder(l1)))
    ensures host in ServerMap(snap, Rules(InOrder(l2)))
  {
    ServerOfHost(snap, Rules(InOrder(l1)), host);
    ServerOfHost(snap, Rules(InOrder(l2)), host);
    NamedIff(InOrder(l1), host);
    NamedIff(InOrder(l2), host);
    var i :| 0 <= i < |InOrder(l1)| && Names(InOrder(l1)[i], host);
    HeldIff(l1, derived, InOrder(l1)[i]);
    HeldIff(l2, derived, InOrder(l1)[i]);
  }

  lemma HarmlessServers(snap: Snapshot, derived: Derived, l1: seq<Ingress>, l2: seq<Ingress>)
    requires Keyed(derived) && TiesAreHarmless(snap, derived)
    requires Lists(l1, derived) && Lists(l2, derived) && AllUsable(InOrder(l1)) && AllUsable(InOrder(l2))
    ensures ServersEqual(ServerMap(snap, Rules(InOrder(l1))), ServerMap(snap, Rules(InOrder(l2))))
  {
    var m1, m2 := ServerMap(snap, Rules(InOrder(l1))), ServerMap(snap, Rules(InOrder(l2)));
    forall h | h in m2 ensures h in m1 {
      SameHosts(snap, derived, l2, l1, h);
    }
    forall h | h in m1 ensures h in m2 && BackendEqual(m1[h], m2[h]) {
      SameHosts(snap, derived, l1, l2, h);
      HarmlessServer(snap, derived, l1, l2, h);
    }
  }

  lemma HarmlessServer(snap: Snapshot, derived: Derived, l1: seq<Ingress>, l2: seq<Ingress>, h: string)
    requires Keyed(derived) && TiesAreHarmless(snap, derived)
    requires Lists(l1, derived) && Lists(l2, derived) && AllUsable(InOrder(l1)) && AllUsable(InOrder(l2))
    requires h in ServerMap(snap, Rules(InOrder(l1))) && h in ServerMap(snap, Rules(InOrder(l2)))
    ensures BackendEqual(ServerMap(snap, Rules(InOrder(l1)))[h], ServerMap(snap, Rules(InOrder(l2)))[h])
  {
    var x1, y1 := Decided(snap, derived, l1, h);
    var x2, y2 := Decided(snap, derived, l2, h);
    assert OneFirstName(derived, h) && OneLastBackend(snap, derived, FirstTarget(x1, h).Upstream());
  }

  lemma ServersMustBeEqual(snap: Snapshot, derived: Derived, l1: seq<Ingress>, l2: seq<Ingress>)
    requires NeverReloads(snap, derived)
    requires Lists(l1, derived) && Lists(l2, derived) && AllUsable(InOrder(l1)) && AllUsable(InOrder(l2))
    ensures ServersEqual(ServerMap(snap, Rules(InOrder(l1))), ServerMap(snap, Rules(InOrder(l2))))
  {
    var m1, m2 := ServerMap(snap, Rules(InOrder(l1))), ServerMap(snap, Rules(InOrder(l2)));
    var c1 := ConfigurationExists(m1);
    var c2 := ConfigurationExists(m2);
    assert Generated(snap, derived, l1, c1) && Generated(snap, derived, l2, c2);
    EqualIffServersEqual(c1, c2, m1, m2);
  }

  lemma HarmfulFirst(snap: Snapshot, derived: Derived, host: string)
    requires Keyed(derived) && host != "" && NeverReloads(snap, derived)
    ensures OneFirstName(derived, host)
  {
    forall x, y | EarliestFor(derived, host, x) && EarliestFor(derived, host, y)
      ensures FirstTarget(x, host).Upstream() == FirstTarget(y, host).Upstream()
    {
      var l1 := CanComeFirst(snap, derived, host, x);
      var l2 := CanComeFirst(snap, derived, host, y);
      ServersMustBeEqual(snap, derived, l1, l2);
    }
  }

  lemma HarmfulLast(snap: Snapshot, derived: Derived, host: string, z: Ingress)
    requires Keyed(derived) && host != "" && NeverReloads(snap, derived)
    requires EarliestFor(derived, host, z) && OneFirstName(derived, host)
    ensures OneLastBackend(snap, derived, FirstTarget(z, host).Upstream())
  {
    var name := FirstTarget(z, host).Upstream();
    forall x, y | LatestFor(derived, name, x) && LatestFor(derived, name, y)
      ensures BackendEqual(Ref(BackendFor(snap, LastTarget(x, name))), Ref(BackendFor(snap, LastTarget(y, name))))
    {
      var l1 := CanComeLast(snap, derived, host, name, x);
      var l2 := CanComeLast(snap, derived, host, name, y);
      ServersMustBeEqual(snap, derived, l1, l2);
    }
  }

  /** An unchanged store never causes a reload, whatever orders the cache lists in, exactly
      when its ties are harmless: for each host, the earliest ingresses that name it agree on
      the upstream name, and the latest that use that name agree on the backend. */
  lemma NeverReloadsIffTiesAreHarmless(snap: Snapshot, derived: Derived)
    requires Keyed(derived)
    ensures NeverReloads(snap, derived) <==> TiesAreHarmless(snap, derived)
  {
    if TiesAreHarmless(snap, derived) {
      forall l1, l2, c1, c2 | Generated(snap, derived, l1, c1) && Generated(snap, derived, l2, c2)
        ensures ConfigurationEqual(Ref(c1), Ref(c2))
      {
        HarmlessServers(snap, derived, l1, l2);
        EqualIffServersEqual(c1, c2, ServerMap(snap, Rules(InOrder(l1))), ServerMap(snap, Rules(InOrder(l2))));
      }
    }
    if NeverReloads(snap, derived) {
      forall host, x | host != "" && EarliestFor(derived, host, x)
        ensures OneFirstName(derived, host) && OneLastBackend(snap, derived, FirstTarget(x, host).Upstream())
      {
        HarmfulFirst(snap, derived, host);
        HarmfulLast(snap, derived, host, x);
      }
    }
  }

  /** Distinct creation times have no ties to do harm. */
  lemma DistinctTimesAreHarmless(snap: Snapshot, derived: Derived)
    requires Keyed(derived) && DistinctTimes(derived)
    ensures TiesAreHarmless(snap, derived)
  {
    forall host, x | host != "" && EarliestFor(derived, host, x)
      ensures OneFirstName(derived, host) && OneLastBackend(snap, derived, FirstTarget(x, host).Upstream())
    {
      OneEarliest(derived, host);
      OneLatest(snap, derived, FirstTarget(x, host).Upstream());
    }
  }

  /** Held ingresses of one moment are one ingress. */
  lemma OneOfItsMoment(derived: Derived, x: Ingress, y: Ingress)
    requires DistinctTimes(derived) && Held(derived, x) && Held(derived, y) && x.created == y.created
    ensures x == y
  {
  }

  lemma OneEarliest(derived: Derived, host: string)
    requires Keyed(derived) && DistinctTimes(derived)
    ensures OneFirstName(derived, host)
  {
    forall x, y | EarliestFor(derived, host, x) && EarliestFor(derived, host, y)
      ensures FirstTarget(x, host).Upstream() == FirstTarget(y, host).Upstream()
    {
      OneOfItsMoment(derived, x, y);
    }
  }

  lemma OneLatest(snap: Snapshot, derived: Derived, name: string)
    requires DistinctTimes(derived)
    ensures OneLastBackend(snap, derived, name)
  {
    forall x, y | LatestFor(derived, name, x) && LatestFor(derived, name, y)
      ensures BackendEqual(Ref(BackendFor(snap, LastTarget(x, name))), Ref(BackendFor(snap, LastTarget(y, name))))
    {
      OneOfItsMoment(derived, x, y);
      var b := Ref(BackendFor(snap, LastTarget(x, name)));
      BackendEqualLaws(b, b, b);
    }
  }

  /** An ingress with one rule for one host. */
  function OneRule(name: string, host: string, service: string): Ingress {
    Ingress("ns", name, 0, map[], [Rule(host, Ref([Path("/", service, IntVal(80))]))])
  }

  lemma OneRuleFirst(name: string, host: string, service: string)
    ensures var x := OneRule(name, host, service);
            Usable(x) && Names(x, host) && FirstTarget(x, host) == Target("ns", service, IntVal(80))
  {
    var x := OneRule(name, host, service);
    assert x.rules[0].host == host;
  }

  /** Two ingresses of one moment that send one host to two services can reload for ever. */
  lemma TiesCanReload(snap: Snapshot)
    ensures var x, y := OneRule("x", "shop", "a"), OneRule("y", "shop", "b");
            var derived: Derived := map["ns/x" := x, "ns/y" := y];
            Keyed(derived) && !TiesAreHarmless(snap, derived) && !NeverReloads(snap, derived)
  {
    var x, y := OneRule("x", "shop", "a"), OneRule("y", "shop", "b");
    var derived: Derived := map["ns/x" := x, "ns/y" := y];
    OneRuleFirst("x", "shop", "a");
    OneRuleFirst("y", "shop", "b");
    assert "ns" + "/" + "x" == "ns/x" && "ns" + "/" + "y" == "ns/y";
    assert EarliestFor(derived, "shop", x) && EarliestFor(derived, "shop", y);
    assert FirstTarget(x, "shop").Upstream()[3] != FirstTarget(y, "shop").Upstream()[3];
    NeverReloadsIffTiesAreHarmless(snap, derived);
  }
}
