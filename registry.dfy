/**
 * The connection registry as values: the hostname -> connections map, the
 * routing patterns registered for bound hostnames, and what one removal, a
 * session teardown and an unbind do to them.
 *
 * Which sessions are connected is given as a set `live`: the core only asks
 * sessions whether they are connected and never changes that itself.
 */
module Registry {
  import opened Wrappers
  import opened Sessions

  /** Every bound hostname with its ordered list of connections. */
  type Connections = map<string, seq<ComponentConnection>>

  /** The routing patterns `bindHostname` and `removeRoutings` build, in order. */
  function RoutingPatterns(hostname: string): seq<string> {
    [hostname, ".*@" + hostname, ".*\\." + hostname]
  }

  function Patterns(hostname: string): set<string> {
    set p | p in RoutingPatterns(hostname)
  }

  /** A hostname yields three different patterns, the first being the hostname itself. */
  lemma PatternsAreThree(hostname: string)
    ensures hostname in Patterns(hostname)
    ensures |Patterns(hostname)| == 3
  {
    var a, b := ".*@" + hostname, ".*\\." + hostname;
    assert |a| == |hostname| + 3 && |b| == |hostname| + 4;
    assert Patterns(hostname) == {hostname, a, b};
  }

  /**
   * No hostname's pattern set lies inside another's, so retracting one
   * hostname's patterns never retracts another's whole set.
   */
  lemma PatternsDetermineHostname(h1: string, h2: string)
    requires Patterns(h2) <= Patterns(h1)
    ensures h1 == h2
  {
    assert h2 in RoutingPatterns(h2) && h2 in Patterns(h2);
    assert ".*@" + h2 in RoutingPatterns(h2) && ".*@" + h2 in Patterns(h2);
    assert |h2| == |h1| || |h2| == |h1| + 3 || |h2| == |h1| + 4;
    assert |h2| + 3 == |h1| || |h2| + 3 == |h1| + 3 || |h2| + 3 == |h1| + 4;
  }

  /** Distinct hostnames can still share one pattern. */
  lemma PatternsMayOverlap()
    ensures Patterns("b") * Patterns(".*@b") != {}
  {
    assert ".*@" + "b" == ".*@b";
    assert ".*@b" in RoutingPatterns("b") && ".*@b" in RoutingPatterns(".*@b");
    assert ".*@b" in Patterns("b") * Patterns(".*@b");
  }

  predicate IsLive(c: ComponentConnection, live: set<XmppIoService>) {
    c.service != null && c.service in live
  }

  /** Some member has a non-null, connected service. */
  predicate AnyLive(conns: seq<ComponentConnection>, live: set<XmppIoService>) {
    exists i :: 0 <= i < |conns| && IsLive(conns[i], live)
  }

  /** A hostname with no list, or whose list has no live member. */
  predicate Dead(m: Connections, hostname: string, live: set<XmppIoService>) {
    hostname !in m || !AnyLive(m[hostname], live)
  }

  /** The non-null services the registry refers to. */
  ghost function ServicesOf(m: Connections): set<XmppIoService> {
    set h, i | h in m && 0 <= i < |m[h]| && m[h][i].service != null :: m[h][i].service
  }

  /** The registry's services that report themselves connected. */
  ghost function LiveIn(m: Connections): set<XmppIoService>
    reads ServicesOf(m)
  {
    set s | s in ServicesOf(m) && s.connected
  }

  /** Two liveness sets that agree on every service of the registry. */
  ghost predicate Agree(m: Connections, live1: set<XmppIoService>, live2: set<XmppIoService>) {
    forall s :: s in ServicesOf(m) ==> (s in live1 <==> s in live2)
  }

  /** Index of the first occurrence of `c` in `s`. */
  function FirstIndex(s: seq<ComponentConnection>, c: ComponentConnection): (k: nat)
    requires c in s
    ensures k < |s| && s[k] == c && c !in s[..k]
  {
    if s[0] == c then 0 else
      var k := FirstIndex(s[1..], c);
      assert s[1..][..k] == s[1..k + 1];
      k + 1
  }

  /** `ArrayList.remove(Object)`: drops the first occurrence, if any. */
  function RemoveFirst(s: seq<ComponentConnection>, c: ComponentConnection): (r: seq<ComponentConnection>)
    ensures multiset(r) == multiset(s) - multiset{c}
    ensures c !in s ==> r == s
  {
    if s == [] then []
    else if s[0] == c then
      assert s == [s[0]] + s[1..];
      s[1..]
    else
      assert s == [s[0]] + s[1..];
      [s[0]] + RemoveFirst(s[1..], c)
  }

  /** Past a different head, the first occurrence is one further on. */
  lemma FirstIndexStep(s: seq<ComponentConnection>, c: ComponentConnection)
    requires c in s && s[0] != c
    ensures c in s[1..] && FirstIndex(s, c) == FirstIndex(s[1..], c) + 1
  {
    var i :| 0 <= i < |s| && s[i] == c;
    assert s[1..][i - 1] == c;
  }

  /** Past a different head, removal keeps the head and goes on in the tail. */
  lemma RemoveFirstStep(s: seq<ComponentConnection>, c: ComponentConnection)
    requires s != [] && s[0] != c
    ensures RemoveFirst(s, c) == [s[0]] + RemoveFirst(s[1..], c)
  {
  }

  /** Cutting out element `k + 1` of `s` is keeping its head and cutting element `k` out of its tail. */
  lemma CutPastHead<T>(s: seq<T>, k: nat)
    requires k + 2 <= |s|
    ensures s[..k + 1] + s[k + 2..] == [s[0]] + (s[1..][..k] + s[1..][k + 1..])
  {
    assert s[1..][..k] == s[1..k + 1];
    assert s[1..][k + 1..] == s[k + 2..];
    assert s[..k + 1] == [s[0]] + s[1..k + 1];
  }

  /** Removal deletes exactly the first occurrence and keeps the order of the rest. */
  lemma {:induction false} RemoveFirstDeletesFirstOccurrence(s: seq<ComponentConnection>, c: ComponentConnection)
    requires c in s
    ensures RemoveFirst(s, c) == s[..FirstIndex(s, c)] + s[FirstIndex(s, c) + 1..]
  {
    if s[0] == c {
      assert FirstIndex(s, c) == 0;
      assert s[..0] == [];
    } else {
      FirstIndexStep(s, c);
      RemoveFirstStep(s, c);
      RemoveFirstDeletesFirstOccurrence(s[1..], c);
      CutPastHead(s, FirstIndex(s[1..], c));
    }
  }

  /** What `removeComponentConnection` does: the new map and its result. */
  function Removal(m: Connections, hostname: string, c: ComponentConnection, live: set<XmppIoService>)
    : (r: (Connections, bool))
  {
    if hostname in m then
      var rest := RemoveFirst(m[hostname], c);
      (m[hostname := rest], AnyLive(rest, live))
    else (m, false)
  }

  /** A removal keeps every key, shrinks only the named list, and reports a live survivor. */
  lemma RemovalShape(m: Connections, hostname: string, c: ComponentConnection, live: set<XmppIoService>)
    ensures var (m', more) := Removal(m, hostname, c, live);
      && m'.Keys == m.Keys
      && (forall h :: h in m && h != hostname ==> m'[h] == m[h])
      && (hostname in m ==> multiset(m'[hostname]) == multiset(m[hostname]) - multiset{c})
      && (more <==> !Dead(m', hostname, live))
  {
  }

  /** Removing a connection that is already gone leaves the map as it is. */
  lemma RemovalOfAbsent(m: Connections, hostname: string, c: ComponentConnection, live: set<XmppIoService>)
    requires hostname in m && c !in m[hostname]
    ensures Removal(m, hostname, c, live) == (m, AnyLive(m[hostname], live))
  {
    assert m[hostname := m[hostname]] == m;
  }

  /** Removal only drops services from the registry. */
  lemma RemovalShrinksServices(m: Connections, hostname: string, c: ComponentConnection, live: set<XmppIoService>)
    ensures ServicesOf(Removal(m, hostname, c, live).0) <= ServicesOf(m)
  {
    var m' := Removal(m, hostname, c, live).0;
    forall s | s in ServicesOf(m') ensures s in ServicesOf(m) {
      var h, i :| h in m' && 0 <= i < |m'[h]| && m'[h][i].service == s;
      var x := m'[h][i];
      assert x in multiset(m'[h]);
      assert x in m[h];
      var j :| 0 <= j < |m[h]| && m[h][j] == x;
    }
  }

  /** Only the liveness of the registry's own services matters to a removal. */
  lemma RemovalDependsOnRegistryServices(m: Connections, hostname: string, c: ComponentConnection,
                                         live1: set<XmppIoService>, live2: set<XmppIoService>)
    requires Agree(m, live1, live2)
    ensures Removal(m, hostname, c, live1) == Removal(m, hostname, c, live2)
  {
    if hostname in m {
      var rest := RemoveFirst(m[hostname], c);
      forall i | 0 <= i < |rest| ensures IsLive(rest[i], live1) == IsLive(rest[i], live2) {
        var x := rest[i];
        assert x in multiset(rest);
        assert x in m[hostname];
        var j :| 0 <= j < |m[hostname]| && m[hostname][j] == x;
        if x.service != null {
          assert x.service in ServicesOf(m);
        }
      }
    }
  }

  /** Every list holds only connections of its own hostname, with ids below `bound`. */
  ghost predicate WellFormed(m: Connections, bound: nat) {
    forall h, i :: h in m && 0 <= i < |m[h]| ==> m[h][i].domain == h && m[h][i].id < bound
  }

  /** A connection with an id not yet handed out is in no list. */
  lemma FreshNotRegistered(m: Connections, bound: nat, c: ComponentConnection)
    requires WellFormed(m, bound) && c.id >= bound
    ensures forall h :: h in m ==> c !in m[h]
  {
  }

  lemma RemovalWellFormed(m: Connections, hostname: string, c: ComponentConnection, live: set<XmppIoService>, bound: nat)
    requires WellFormed(m, bound)
    ensures WellFormed(Removal(m, hostname, c, live).0, bound)
  {
    if hostname in m {
      var rest := RemoveFirst(m[hostname], c);
      forall i | 0 <= i < |rest| ensures rest[i].domain == hostname && rest[i].id < bound {
        assert rest[i] in multiset(rest);
        assert rest[i] in m[hostname];
      }
    }
  }

  /** Whether a registered connection counts as live in `LiveIn` is whether its service is connected. */
  lemma MemberLiveness(m: Connections, hostname: string, x: ComponentConnection)
    requires hostname in m && x in m[hostname]
    ensures IsLive(x, LiveIn(m)) <==> x.service != null && x.service.connected
  {
    if x.service != null {
      var i :| 0 <= i < |m[hostname]| && m[hostname][i] == x;
      assert x.service in ServicesOf(m);
    }
  }

  /** What `MemberLiveness` says, for every survivor of a removal at once. */
  lemma RemovalLiveness(m: Connections, hostname: string, c: ComponentConnection)
    requires hostname in m
    ensures forall x :: x in RemoveFirst(m[hostname], c) ==>
      (IsLive(x, LiveIn(m)) <==> x.service != null && x.service.connected)
  {
    var rest := RemoveFirst(m[hostname], c);
    forall x | x in rest ensures IsLive(x, LiveIn(m)) <==> x.service != null && x.service.connected {
      assert x in multiset(rest);
      assert x in m[hostname];
      MemberLiveness(m, hostname, x);
    }
  }

  /**
   * While only the registry changes, the connected services of a smaller
   * registry are those of the liveness set taken at the start.
   */
  lemma LiveInAgrees(m: Connections, m0: Connections, live0: set<XmppIoService>)
    requires ServicesOf(m) <= ServicesOf(m0)
    requires forall s :: s in ServicesOf(m0) ==> (s in live0 <==> s.connected)
    ensures Agree(m, LiveIn(m), live0)
  {
  }

  /** A list with no live member keeps none after a removal. */
  lemma DeadStaysDead(m: Connections, hostname: string, c: ComponentConnection, live: set<XmppIoService>)
    requires Dead(m, hostname, live)
    ensures Dead(Removal(m, hostname, c, live).0, hostname, live)
  {
    if hostname in m {
      var rest := RemoveFirst(m[hostname], c);
      forall i | 0 <= i < |rest| ensures !IsLive(rest[i], live) {
        var x := rest[i];
        assert x in multiset(rest);
        assert x in m[hostname];
      }
    }
  }

  /** The connections map together with the regex routings of the component. */
  datatype RoutingState = RoutingState(connections: Connections, routings: set<string>)

  /**
   * One step of a teardown: remove `c` from the list of its own domain, and
   * retract that domain's routings when no live connection survives.
   */
  function RemoveAndUnroute(st: RoutingState, c: ComponentConnection, live: set<XmppIoService>): RoutingState {
    var (m, more) := Removal(st.connections, c.domain, c, live);
    RoutingState(m, if more then st.routings else st.routings - Patterns(c.domain))
  }

  /** `serviceStopped`'s loop over a session's back-reference list. */
  function StopAll(st: RoutingState, cs: seq<ComponentConnection>, live: set<XmppIoService>): (r: RoutingState)
    decreases |cs|
  {
    if cs == [] then st
    else RemoveAndUnroute(StopAll(st, cs[..|cs| - 1], live), cs[|cs| - 1], live)
  }

  /** Pattern `p` belongs to a domain of `cs` that is left with no live connection. */
  ghost predicate Retracted(p: string, m: Connections, cs: seq<ComponentConnection>, live: set<XmppIoService>) {
    exists i :: 0 <= i < |cs| && Dead(m, cs[i].domain, live) && p in Patterns(cs[i].domain)
  }

  /** How one teardown step changes which patterns count as retracted. */
  lemma RetractedStep(mid: RoutingState, cs0: seq<ComponentConnection>, c: ComponentConnection,
                      live: set<XmppIoService>, p: string)
    ensures var m' := RemoveAndUnroute(mid, c, live).connections;
      Retracted(p, m', cs0 + [c], live)
      <==> Retracted(p, mid.connections, cs0, live) || (Dead(m', c.domain, live) && p in Patterns(c.domain))
  {
    var m' := RemoveAndUnroute(mid, c, live).connections;
    var cs := cs0 + [c];
    RemovalShape(mid.connections, c.domain, c, live);
    if Retracted(p, mid.connections, cs0, live) {
      var i :| 0 <= i < |cs0| && Dead(mid.connections, cs0[i].domain, live) && p in Patterns(cs0[i].domain);
      if cs0[i].domain == c.domain {
        DeadStaysDead(mid.connections, c.domain, c, live);
      }
      assert cs[i] == cs0[i];
    }
    if Dead(m', c.domain, live) && p in Patterns(c.domain) {
      assert cs[|cs0|] == c;
    }
    if Retracted(p, m', cs, live) {
      var i :| 0 <= i < |cs| && Dead(m', cs[i].domain, live) && p in Patterns(cs[i].domain);
      if i < |cs0| && cs[i].domain != c.domain {
        assert cs0[i] == cs[i];
      }
    }
  }

  /**
   * After a teardown, a routing survives exactly when it was there before
   * and is not a pattern of a torn-down domain that ends with no live
   * connection. In particular a domain that keeps a live sibling keeps its
   * routings, whatever the order of the back-reference list.
   */
  lemma {:induction false} StopAllRoutings(st: RoutingState, cs: seq<ComponentConnection>, live: set<XmppIoService>)
    ensures var r := StopAll(st, cs, live);
      forall p :: p in r.routings <==> p in st.routings && !Retracted(p, r.connections, cs, live)
  {
    if cs != [] {
      var cs0, c := cs[..|cs| - 1], cs[|cs| - 1];
      assert cs == cs0 + [c];
      var mid := StopAll(st, cs0, live);
      StopAllRoutings(st, cs0, live);
      var r := RemoveAndUnroute(mid, c, live);
      assert r == StopAll(st, cs, live);
      RemovalShape(mid.connections, c.domain, c, live);
      assert r.routings == if Dead(r.connections, c.domain, live) then mid.routings - Patterns(c.domain) else mid.routings;
      forall p ensures p in r.routings <==> p in st.routings && !Retracted(p, r.connections, cs, live) {
        RetractedStep(mid, cs0, c, live, p);
        assert p in mid.routings <==> p in st.routings && !Retracted(p, mid.connections, cs0, live);
        if Dead(r.connections, c.domain, live) && p in Patterns(c.domain) {
          assert p !in r.routings;
        }
      }
    }
  }

  /** A teardown never prunes a hostname, even when its list becomes empty. */
  lemma {:induction false} StopAllKeepsHostnames(st: RoutingState, cs: seq<ComponentConnection>, live: set<XmppIoService>)
    ensures StopAll(st, cs, live).connections.Keys == st.connections.Keys
  {
    if cs != [] {
      StopAllKeepsHostnames(st, cs[..|cs| - 1], live);
      RemovalShape(StopAll(st, cs[..|cs| - 1], live).connections, cs[|cs| - 1].domain, cs[|cs| - 1], live);
    }
  }

  /** The connections of `cs` whose domain is `hostname`. */
  function OnDomain(cs: seq<ComponentConnection>, hostname: string): seq<ComponentConnection>
    decreases |cs|
  {
    if cs == [] then []
    else OnDomain(cs[..|cs| - 1], hostname) + (if cs[|cs| - 1].domain == hostname then [cs[|cs| - 1]] else [])
  }

  /** A teardown removes from each list one occurrence of each of its connections. */
  lemma {:induction false} StopAllContents(st: RoutingState, cs: seq<ComponentConnection>, live: set<XmppIoService>, h: string)
    requires h in st.connections
    ensures h in StopAll(st, cs, live).connections
    ensures multiset(StopAll(st, cs, live).connections[h]) == multiset(st.connections[h]) - multiset(OnDomain(cs, h))
  {
    if cs != [] {
      var cs0, c := cs[..|cs| - 1], cs[|cs| - 1];
      StopAllContents(st, cs0, live, h);
      var mid := StopAll(st, cs0, live);
      var m' := StopAll(st, cs, live).connections;
      assert m' == Removal(mid.connections, c.domain, c, live).0;
      var old0, gone0 := multiset(st.connections[h]), multiset(OnDomain(cs0, h));
      if c.domain == h {
        assert OnDomain(cs, h) == OnDomain(cs0, h) + [c];
        assert multiset(OnDomain(cs, h)) == gone0 + multiset{c};
        assert m'[h] == RemoveFirst(mid.connections[h], c);
        assert multiset(m'[h]) == old0 - gone0 - multiset{c};
      } else {
        assert OnDomain(cs, h) == OnDomain(cs0, h);
        assert m'[h] == mid.connections[h];
      }
    }
  }

  /** Index of the last connection in `conns` whose service is `serv`. */
  function LastIndexOfService(conns: seq<ComponentConnection>, serv: XmppIoService): (r: Option<nat>)
    ensures r.Some? ==> r.value < |conns| && conns[r.value].service == serv
    ensures r.Some? ==> forall j :: r.value < j < |conns| ==> conns[j].service != serv
    ensures r.None? ==> forall j :: 0 <= j < |conns| ==> conns[j].service != serv
    decreases |conns|
  {
    if conns == [] then None
    else if conns[|conns| - 1].service == serv then Some(|conns| - 1)
    else LastIndexOfService(conns[..|conns| - 1], serv)
  }

  /** `unbindHostname`: removes the last connection of `serv` for `hostname`, if any. */
  function Unbind(st: RoutingState, hostname: string, serv: XmppIoService, live: set<XmppIoService>): (r: RoutingState) {
    if hostname in st.connections then
      match LastIndexOfService(st.connections[hostname], serv)
      case None => st
      case Some(k) => RemoveAndUnroute(st, st.connections[hostname][k], live)
    else st
  }

  /**
   * An unbind followed by the teardown of the same session tries the same
   * removal again: the list stays as it is, and the routings are retracted
   * again unless a live connection remains.
   */
  lemma UnbindThenStopRetriesRemoval(st: RoutingState, hostname: string, serv: XmppIoService,
                                     live: set<XmppIoService>, k: nat)
    requires hostname in st.connections
    requires LastIndexOfService(st.connections[hostname], serv) == Some(k)
    requires st.connections[hostname][k].domain == hostname
    requires multiset(st.connections[hostname])[st.connections[hostname][k]] == 1
    ensures var c := st.connections[hostname][k];
      var u := Unbind(st, hostname, serv, live);
      var s := StopAll(u, [c], live);
      && s.connections == u.connections
      && s.routings == if AnyLive(u.connections[hostname], live) then u.routings else u.routings - Patterns(hostname)
  {
    var c := st.connections[hostname][k];
    var u := Unbind(st, hostname, serv, live);
    assert u == RemoveAndUnroute(st, c, live);
    RemovalShape(st.connections, hostname, c, live);
    assert hostname in u.connections;
    assert multiset(u.connections[hostname])[c] == 0;
    assert c !in u.connections[hostname];
    RemovalOfAbsent(u.connections, hostname, c, live);
    assert [c][..0] == [];
    assert StopAll(u, [c], live) == RemoveAndUnroute(StopAll(u, [], live), c, live);
  }

  /** Every hostname with a live connection has its three patterns routed. */
  ghost predicate RoutedWhileLive(st: RoutingState, live: set<XmppIoService>) {
    forall h :: h in st.connections && AnyLive(st.connections[h], live) ==> Patterns(h) <= st.routings
  }

  /** The patterns of `d` share nothing with those of the other hostnames of `m`. */
  ghost predicate Separate(d: string, m: Connections) {
    forall h :: h in m && h != d ==> Patterns(h) !! Patterns(d)
  }

  /** A survivor of a removal was in the list before it. */
  lemma AnyLiveAfterRemoval(s: seq<ComponentConnection>, c: ComponentConnection, live: set<XmppIoService>)
    requires AnyLive(RemoveFirst(s, c), live)
    ensures AnyLive(s, live)
  {
    var rest := RemoveFirst(s, c);
    var i :| 0 <= i < |rest| && IsLive(rest[i], live);
    assert rest[i] in multiset(rest);
    assert rest[i] in s;
    var j :| 0 <= j < |s| && s[j] == rest[i];
  }

  /** `bindHostname` (routings, then the connection) keeps every live hostname routed. */
  lemma BindRoutedWhileLive(st: RoutingState, hostname: string, c: ComponentConnection, live: set<XmppIoService>)
    requires RoutedWhileLive(st, live)
    ensures RoutedWhileLive(RoutingState(Appended(st.connections, hostname, c), st.routings + Patterns(hostname)), live)
  {
    var m' := Appended(st.connections, hostname, c);
    forall h | h in m' && AnyLive(m'[h], live) ensures Patterns(h) <= st.routings + Patterns(hostname) {
      if h != hostname {
        assert m'[h] == st.connections[h];
      }
    }
  }

  /** One teardown step keeps every live hostname routed, if its domain's patterns are its own. */
  lemma RemoveAndUnrouteRoutedWhileLive(st: RoutingState, c: ComponentConnection, live: set<XmppIoService>)
    requires RoutedWhileLive(st, live)
    requires Separate(c.domain, st.connections)
    ensures RoutedWhileLive(RemoveAndUnroute(st, c, live), live)
  {
    var r := RemoveAndUnroute(st, c, live);
    RemovalShape(st.connections, c.domain, c, live);
    forall h | h in r.connections && AnyLive(r.connections[h], live) ensures Patterns(h) <= r.routings {
      if h == c.domain {
        AnyLiveAfterRemoval(st.connections[h], c, live);
      } else {
        assert r.connections[h] == st.connections[h];
      }
    }
  }

  /** A whole teardown keeps every live hostname routed. */
  lemma {:induction false} StopAllRoutedWhileLive(st: RoutingState, cs: seq<ComponentConnection>, live: set<XmppIoService>)
    requires RoutedWhileLive(st, live)
    requires forall i :: 0 <= i < |cs| ==> Separate(cs[i].domain, st.connections)
    ensures RoutedWhileLive(StopAll(st, cs, live), live)
    decreases |cs|
  {
    if cs != [] {
      var cs0, c := cs[..|cs| - 1], cs[|cs| - 1];
      forall i | 0 <= i < |cs0| ensures Separate(cs0[i].domain, st.connections) {
        assert cs0[i] == cs[i];
      }
      StopAllRoutedWhileLive(st, cs0, live);
      var mid := StopAll(st, cs0, live);
      StopAllKeepsHostnames(st, cs0, live);
      assert Separate(c.domain, st.connections);
      forall h | h in mid.connections && h != c.domain ensures Patterns(h) !! Patterns(c.domain) {
        assert h in st.connections;
      }
      RemoveAndUnrouteRoutedWhileLive(mid, c, live);
    }
  }

  /** `unbindHostname` keeps every live hostname routed. */
  lemma UnbindRoutedWhileLive(st: RoutingState, hostname: string, serv: XmppIoService, live: set<XmppIoService>)
    requires RoutedWhileLive(st, live)
    requires hostname in st.connections ==>
      forall i :: 0 <= i < |st.connections[hostname]| ==> Separate(st.connections[hostname][i].domain, st.connections)
    ensures RoutedWhileLive(Unbind(st, hostname, serv, live), live)
  {
    if hostname in st.connections {
      var k := LastIndexOfService(st.connections[hostname], serv);
      if k.Some? {
        RemoveAndUnrouteRoutedWhileLive(st, st.connections[hostname][k.value], live);
      }
    }
  }

  /** Registry after `addComponentConnection` appended `c` to the list of `hostname`. */
  function Appended(m: Connections, hostname: string, c: ComponentConnection): Connections {
    m[hostname := (if hostname in m then m[hostname] else []) + [c]]
  }

  /** Removing a connection that was appended last, and only there, gives back the old list. */
  lemma {:induction false} RemoveFirstOfAppended(s: seq<ComponentConnection>, c: ComponentConnection)
    requires c !in s
    ensures RemoveFirst(s + [c], c) == s
  {
    if s != [] {
      assert (s + [c])[1..] == s[1..] + [c];
      RemoveFirstOfAppended(s[1..], c);
      assert s == [s[0]] + s[1..];
    }
  }

  /**
   * Adding a fresh connection and removing it again restores every list; a
   * hostname that had no list keeps an empty one.
   */
  lemma AppendThenRemove(m: Connections, hostname: string, c: ComponentConnection, live: set<XmppIoService>)
    requires hostname !in m || c !in m[hostname]
    ensures Removal(Appended(m, hostname, c), hostname, c, live).0
         == m[hostname := if hostname in m then m[hostname] else []]
  {
    RemoveFirstOfAppended(if hostname in m then m[hostname] else [], c);
  }

  /** Total number of connections over all hostnames (empty lists included). */
  ghost function TotalConnections(m: Connections): nat
    decreases |m|
  {
    if m == map[] then 0
    else
      var h :| h in m;
      assert (m - {h}).Keys == m.Keys - {h};
      |m[h]| + TotalConnections(m - {h})
  }

  /** The total does not depend on which hostname is counted first. */
  lemma {:induction false} TotalConnectionsWithout(m: Connections, h: string)
    requires h in m
    ensures TotalConnections(m) == |m[h]| + TotalConnections(m - {h})
    decreases |m|
  {
    var j :| j in m && TotalConnections(m) == |m[j]| + TotalConnections(m - {j});
    if j != h {
      assert (m - {j}).Keys == m.Keys - {j};
      assert (m - {h}).Keys == m.Keys - {h};
      TotalConnectionsWithout(m - {j}, h);
      TotalConnectionsWithout(m - {h}, j);
      assert m - {j} - {h} == m - {h} - {j};
    }
  }

  /** Replacing one list changes the total by the difference in its length. */
  lemma TotalConnectionsUpdate(m: Connections, h: string, s: seq<ComponentConnection>)
    ensures TotalConnections(m[h := s]) + (if h in m then |m[h]| else 0) == TotalConnections(m) + |s|
  {
    TotalConnectionsWithout(m[h := s], h);
    assert m[h := s] - {h} == m - {h};
    if h in m {
      TotalConnectionsWithout(m, h);
    } else {
      assert m - {h} == m;
    }
  }

  /** Adding a connection adds one to the total, and a domain only for a new hostname. */
  lemma AppendedCounts(m: Connections, hostname: string, c: ComponentConnection)
    ensures TotalConnections(Appended(m, hostname, c)) == TotalConnections(m) + 1
    ensures |Appended(m, hostname, c)| == if hostname in m then |m| else |m| + 1
  {
    TotalConnectionsUpdate(m, hostname, (if hostname in m then m[hostname] else []) + [c]);
    if hostname in m {
      assert Appended(m, hostname, c).Keys == m.Keys;
    } else {
      assert Appended(m, hostname, c).Keys == m.Keys + {hostname};
    }
  }

  /**
   * A removal subtracts one from the total exactly when the connection was
   * in its list, and never changes the number of domains.
   */
  lemma RemovalCounts(m: Connections, hostname: string, c: ComponentConnection, live: set<XmppIoService>)
    ensures |Removal(m, hostname, c, live).0| == |m|
    ensures TotalConnections(Removal(m, hostname, c, live).0) + (if hostname in m && c in m[hostname] then 1 else 0)
            == TotalConnections(m)
  {
    RemovalShape(m, hostname, c, live);
    assert Removal(m, hostname, c, live).0.Keys == m.Keys;
    if hostname in m {
      var rest := RemoveFirst(m[hostname], c);
      TotalConnectionsUpdate(m, hostname, rest);
      assert |multiset(rest)| == |rest|;
      assert |multiset(m[hostname])| == |m[hostname]|;
      if c in m[hostname] {
        assert multiset(m[hostname]) == multiset(rest) + multiset{c};
      }
    }
  }
}
