/**
 * The component protocol coordinator: the connection registry, the regex
 * routings, the handler table and the processor chain, and the session
 * lifecycle callbacks that update them.
 *
 * The connection manager this class extends is not part of the model:
 * `addWaitingTask` appends to `waitingTasks`, `addOutPacket` to
 * `outPackets`, the regex routings are the set `routings`, and the result of
 * `super.serviceStopped` is a parameter.
 */
module Protocol {
  import opened Wrappers
  import opened Packets
  import opened Sessions
  import opened Registry
  import opened Handlers
  import opened Pipeline
  import opened Config

  predicate HasConnectedService(c: ComponentConnection)
    reads c.service
  {
    c.service != null && c.service.connected
  }

  class ComponentProtocol {
    var connections: Connections
    var streamOpenHandlers: HandlerTable
    var processors: seq<ExtProcessor>
    var hostnamesToBind: Option<seq<string>>
    var routings: set<string>
    var waitingTasks: seq<WaitingTask>
    var outPackets: seq<Packet>
    /** Identity of the next ComponentConnection record to be created. */
    var nextConnectionId: nat

    /** Each list holds connections of its own hostname, all created by this object. */
    ghost predicate Valid()
      reads this
    {
      WellFormed(connections, nextConnectionId)
    }

    /** The constructor: registers each handler's namespaces, later puts overwriting earlier ones. */
    constructor (jabberClientXmlns: Option<seq<string>>, componentAcceptXmlns: Option<seq<string>>,
                 componentConnectXmlns: Option<seq<string>>)
      ensures Valid()
      ensures streamOpenHandlers == BuildTable(jabberClientXmlns, componentAcceptXmlns, componentConnectXmlns)
      ensures connections == map[] && processors == [] && hostnamesToBind == None
      ensures routings == {} && waitingTasks == [] && outPackets == []
    {
      var table := RegisterHandler(map[], jabberClientXmlns, JabberClient);
      table := RegisterHandler(table, componentAcceptXmlns, ComponentAccept);
      table := RegisterHandler(table, componentConnectXmlns, ComponentConnect);
      connections := map[];
      streamOpenHandlers := table;
      processors := [];
      hostnamesToBind := None;
      routings := {};
      waitingTasks := [];
      outPackets := [];
      nextConnectionId := 0;
    }

    /**
     * The inner loop of `processSocketData`: every processor sees the packet
     * once, in chain order; their outputs are collected in that order.
     */
    method RunProcessors(received: Packet, process: (ExtProcessor, Packet) -> Claim)
      returns (processed: bool, out: seq<Packet>)
      ensures processed == Dispatch(processors, received, process).claimed
      ensures out == Dispatch(processors, received, process).out
    {
      processed := false;
      out := [];
      for k := 0 to |processors|
        invariant processed == Dispatch(processors[..k], received, process).claimed
        invariant out == Dispatch(processors[..k], received, process).out
      {
        assert processors[..k + 1][..k] == processors[..k];
        var claim := process(processors[k], received);
        processed := processed || claim.claimed;
        out := out + claim.out;
      }
      assert processors[..|processors|] == processors;
    }

    /**
     * One iteration of `processSocketData`: the processors' output goes to
     * the socket, and an unclaimed packet goes to the router, unpacked if
     * routed.
     */
    method HandlePacket(serv: XmppIoService, received: Packet, process: (ExtProcessor, Packet) -> Claim)
      modifies serv`written, this`outPackets
      ensures serv.written == old(serv.written) + Dispatch(processors, received, process).out
      ensures outPackets == old(outPackets) + Forwarded(processors, received, process)
    {
      var processed, out := RunProcessors(received, process);
      serv.written := serv.written + out;
      var p := received;
      if !processed {
        if p.Routed? {
          p := UnpackRouted(p);
        }
        outPackets := outPackets + [p];
      }
    }

    /** `processSocketData`: drains the queue, every processor seeing every packet. */
    method ProcessSocketData(serv: XmppIoService, process: (ExtProcessor, Packet) -> Claim)
      modifies serv`receivedPackets, serv`written, this`outPackets
      ensures serv.receivedPackets == []
      ensures serv.written == old(serv.written) + Drain(processors, old(serv.receivedPackets), process).written
      ensures outPackets == old(outPackets) + Drain(processors, old(serv.receivedPackets), process).routed
    {
      ghost var queue0, written0, out0 := serv.receivedPackets, serv.written, outPackets;
      ghost var i: nat := 0;
      while serv.receivedPackets != []
        invariant i <= |queue0| && serv.receivedPackets == queue0[i..]
        invariant serv.written == written0 + Drain(processors, queue0[..i], process).written
        invariant outPackets == out0 + Drain(processors, queue0[..i], process).routed
        decreases |serv.receivedPackets|
      {
        var received := serv.receivedPackets[0];
        serv.receivedPackets := serv.receivedPackets[1..];
        DrainPrefixStep(processors, queue0, i, process);
        HandlePacket(serv, received, process);
        i := i + 1;
      }
      assert queue0[..i] == queue0;
    }

    /**
     * `getXMPPIOService`: the service of the first connection for the
     * packet's destination host that has a connected service.
     */
    method GetXmppIoService(p: Packet) returns (result: XmppIoService?)
      ensures result != null ==>
        p.elemToHost in connections
        && exists k :: 0 <= k < |connections[p.elemToHost]|
             && connections[p.elemToHost][k].service == result && result.connected
             && forall j :: 0 <= j < k ==> !HasConnectedService(connections[p.elemToHost][j])
      ensures result == null ==>
        p.elemToHost !in connections
        || forall k :: 0 <= k < |connections[p.elemToHost]| ==> !HasConnectedService(connections[p.elemToHost][k])
    {
      result := null;
      var hostname := p.elemToHost;
      if hostname in connections {
        var conns := connections[hostname];
        var i := 0;
        while i < |conns|
          invariant 0 <= i <= |conns|
          invariant result == null
          invariant forall j :: 0 <= j < i ==> !HasConnectedService(conns[j])
        {
          var serv := conns[i].service;
          if serv != null {
            if serv.connected {
              result := serv;
            }
          }
          if result != null {
            break;
          }
          i := i + 1;
        }
      }
    }

    /** `xmppStreamOpened`: the reply of the handler chosen by the stream's namespace. */
    method XmppStreamOpened(xmlns: Option<string>, streamOpened: HandlerChoice -> Option<string>)
      returns (result: Option<string>)
      ensures result == streamOpened(SelectStreamOpenHandler(streamOpenHandlers, xmlns))
    {
      var handler := LookupHandler(streamOpenHandlers, xmlns);
      if handler.None? || xmlns.None? {
        result := streamOpened(UnknownXmlns);
      } else {
        result := streamOpened(Registered(handler.value));
      }
    }

    /**
     * `serviceStarted`: the handler registered for the repository item's
     * namespace may ask for a stream header to be sent; there is no fallback
     * handler here. A session without a repository item makes the source throw
     * (`npe`), and nothing is sent.
     */
    method ServiceStarted(serv: XmppIoService, serviceStarted: StreamOpenHandler -> Option<string>)
      returns (npe: bool)
      modifies serv`streamOpens
      ensures npe <==> serv.sessionData.repoItem.None?
      ensures var handler := if npe then None else LookupHandler(streamOpenHandlers, serv.sessionData.repoItem.value.xmlns);
        serv.streamOpens == old(serv.streamOpens)
          + (if handler.Some? && serviceStarted(handler.value).Some? then [serviceStarted(handler.value).value] else [])
    {
      var item := serv.sessionData.repoItem;
      if item.None? {
        return true;
      }
      npe := false;
      var handler := LookupHandler(streamOpenHandlers, item.value.xmlns);
      var result: Option<string> := None;
      if handler.Some? {
        result := serviceStarted(handler.value);
      }
      if result.Some? {
        serv.streamOpens := serv.streamOpens + [result.value];
      }
    }

    /** `addComponentConnection`: a new connection at the end of both lists. */
    method AddComponentConnection(hostname: string, s: XmppIoService)
      requires Valid()
      modifies this`connections, this`nextConnectionId, s`refObject
      ensures Valid()
      ensures var conn := ComponentConnection(old(nextConnectionId), hostname, s);
        && connections == Appended(old(connections), hostname, conn)
        && s.refObject == Some(old(s.refObject).GetOr([]) + [conn])
        && forall h :: h in old(connections) ==> conn !in old(connections)[h]
      ensures nextConnectionId == old(nextConnectionId) + 1
    {
      var conn := ComponentConnection(nextConnectionId, hostname, s);
      FreshNotRegistered(connections, nextConnectionId, conn);
      nextConnectionId := nextConnectionId + 1;
      var refObject := s.refObject;
      if refObject.None? {
        refObject := Some([]);
        s.refObject := refObject;
      }
      s.refObject := Some(refObject.value + [conn]);
      var conns := if hostname in connections then connections[hostname] else [];
      connections := connections[hostname := conns + [conn]];
    }

    /**
     * `removeComponentConnection`: drops the connection from its hostname's
     * list (keeping the key) and reports whether a live connection remains.
     */
    method RemoveComponentConnection(hostname: string, conn: ComponentConnection) returns (result: bool)
      requires Valid()
      modifies this`connections
      ensures Valid()
      ensures (connections, result) == Removal(old(connections), hostname, conn, old(LiveIn(connections)))
    {
      ghost var live := LiveIn(connections);
      result := false;
      if hostname in connections {
        RemovalWellFormed(connections, hostname, conn, live, nextConnectionId);
        RemovalLiveness(connections, hostname, conn);
        var conns := RemoveFirst(connections[hostname], conn);
        connections := connections[hostname := conns];
        for i := 0 to |conns|
          invariant result <==> exists j :: 0 <= j < i && IsLive(conns[j], live)
        {
          assert conns[i] in conns;
          var serv := conns[i].service;
          if serv != null && serv.connected {
            result := true;
          }
        }
      }
    }

    /** `updateRoutings`: adds or removes each pattern. */
    method UpdateRoutings(routes: seq<string>, add: bool)
      modifies this`routings
      ensures routings == if add then old(routings) + (set r | r in routes) else old(routings) - (set r | r in routes)
    {
      for i := 0 to |routes|
        invariant routings == if add then old(routings) + (set r | r in routes[..i])
                              else old(routings) - (set r | r in routes[..i])
      {
        ghost var seen := routes[..i + 1];
        assert seen == routes[..i] + [routes[i]];
        assert (set r | r in seen) == (set r | r in routes[..i]) + {routes[i]};
        if add {
          routings := routings + {routes[i]};
        } else {
          routings := routings - {routes[i]};
        }
      }
      assert routes[..|routes|] == routes;
    }

    /** `removeRoutings`: retracts the three patterns of a hostname. */
    method RemoveRoutings(hostname: string)
      modifies this`routings
      ensures routings == old(routings) - Patterns(hostname)
    {
      UpdateRoutings(RoutingPatterns(hostname), false);
    }

    /** `bindHostname`: routes the hostname's three patterns here, then registers the connection. */
    method BindHostname(hostname: string, serv: XmppIoService)
      requires Valid()
      modifies this`routings, this`connections, this`nextConnectionId, serv`refObject
      ensures Valid()
      ensures routings == old(routings) + Patterns(hostname)
      ensures var conn := ComponentConnection(old(nextConnectionId), hostname, serv);
        && connections == Appended(old(connections), hostname, conn)
        && serv.refObject == Some(old(serv.refObject).GetOr([]) + [conn])
      ensures nextConnectionId == old(nextConnectionId) + 1
    {
      UpdateRoutings(RoutingPatterns(hostname), true);
      AddComponentConnection(hostname, serv);
    }

    /**
     * `unbindHostname`: removes the last connection of `serv` for the
     * hostname, without touching the session's back-reference list.
     */
    method UnbindHostname(hostname: string, serv: XmppIoService)
      requires Valid()
      modifies this`connections, this`routings
      ensures Valid()
      ensures RoutingState(connections, routings)
           == Unbind(old(RoutingState(connections, routings)), hostname, serv, old(LiveIn(connections)))
    {
      if hostname in connections {
        var conns := connections[hostname];
        var conn: Option<ComponentConnection> := None;
        for i := 0 to |conns|
          invariant conn.None? <==> LastIndexOfService(conns[..i], serv).None?
          invariant conn.Some? ==> conn.value == conns[LastIndexOfService(conns[..i], serv).value]
        {
          assert conns[..i + 1][..i] == conns[..i];
          if conns[i].service == serv {
            conn := Some(conns[i]);
          }
        }
        assert conns[..|conns|] == conns;
        if conn.Some? {
          var moreConnections := RemoveComponentConnection(conn.value.domain, conn.value);
          if !moreConnections {
            RemoveRoutings(conn.value.domain);
          }
        }
      }
    }

    /**
     * `authenticated`: marks the session, binds its hostname and, when
     * extra hostnames are configured, hands them to the bind processor,
     * whose start-up output `bindOutput` is written to the socket.
     */
    method Authenticated(serv: XmppIoService, bindOutput: seq<Packet>)
      requires Valid()
      requires serv.sessionData.hostname.Some?
      modifies serv`sessionData, serv`refObject, serv`written
      modifies this`routings, this`connections, this`nextConnectionId
      ensures Valid()
      ensures var hostname := old(serv.sessionData.hostname.value);
        var conn := ComponentConnection(old(nextConnectionId), hostname, serv);
        && routings == old(routings) + Patterns(hostname)
        && connections == Appended(old(connections), hostname, conn)
        && serv.refObject == Some(old(serv.refObject).GetOr([]) + [conn])
      ensures nextConnectionId == old(nextConnectionId) + 1
      ensures serv.sessionData == old(serv.sessionData).(
        authenticated := true,
        bindHostnames := if hostnamesToBind.Some? then hostnamesToBind else old(serv.sessionData.bindHostnames))
      ensures serv.written == old(serv.written) + (if hostnamesToBind.Some? && Bind in processors then bindOutput else [])
    {
      serv.sessionData := serv.sessionData.(authenticated := true);
      var hostname := serv.sessionData.hostname.value;
      BindHostname(hostname, serv);
      if hostnamesToBind.Some? {
        serv.sessionData := serv.sessionData.(bindHostnames := hostnamesToBind);
        if Bind in processors {
          serv.written := serv.written + bindOutput;
        }
      }
    }

    /** The loop of `serviceStopped` over a session's back-reference list. */
    method TearDown(cs: seq<ComponentConnection>)
      requires Valid()
      modifies this`connections, this`routings
      ensures Valid()
      ensures RoutingState(connections, routings) == StopAll(old(RoutingState(connections, routings)), cs, old(LiveIn(connections)))
    {
      ghost var st0 := RoutingState(connections, routings);
      ghost var m0 := connections;
      ghost var live0 := LiveIn(connections);
      for i := 0 to |cs|
        invariant Valid()
        invariant RoutingState(connections, routings) == StopAll(st0, cs[..i], live0)
        invariant ServicesOf(connections) <= ServicesOf(m0)
        invariant forall s :: s in ServicesOf(m0) ==> (s in live0 <==> s.connected)
      {
        var conn := cs[i];
        LiveInAgrees(connections, m0, live0);
        RemovalDependsOnRegistryServices(connections, conn.domain, conn, LiveIn(connections), live0);
        RemovalShrinksServices(connections, conn.domain, conn, live0);
        var moreConnections := RemoveComponentConnection(conn.domain, conn);
        if !moreConnections {
          RemoveRoutings(conn.domain);
        }
        assert cs[..i + 1][..i] == cs[..i];
      }
      assert cs[..|cs|] == cs;
    }

    /**
     * `serviceStopped`: when the connection manager accepted the stop, tears
     * down every connection of the session and, for an outbound session,
     * queues one reconnect carrying its session data.
     */
    method ServiceStopped(service: XmppIoService, superStopped: bool) returns (result: bool)
      requires Valid()
      modifies this`connections, this`routings, this`waitingTasks
      ensures Valid()
      ensures result == superStopped
      ensures var hostname := service.sessionData.hostname;
        var tearDown := superStopped && hostname.Some? && hostname.value != "" && service.refObject.Some?;
        RoutingState(connections, routings)
          == if tearDown then StopAll(old(RoutingState(connections, routings)), service.refObject.value, old(LiveIn(connections)))
             else old(RoutingState(connections, routings))
      ensures waitingTasks == old(waitingTasks)
        + (if superStopped && service.connectionType == Connect then [ReconnectTask(service.sessionData)] else [])
    {
      result := superStopped;
      if result {
        var sessionData := service.sessionData;
        var hostname := sessionData.hostname;
        if hostname.Some? && hostname.value != "" {
          var conns := service.refObject;
          if conns.Some? {
            TearDown(conns.value);
          }
        }
        var connectionType := service.connectionType;
        if connectionType == Connect {
          waitingTasks := waitingTasks + [ReconnectTask(sessionData)];
        }
      }
    }

    /**
     * `setProperties`, in the parts this model keeps: one connect task per
     * repository item with a positive port, the extra hostnames to bind, and
     * the processor chain rebuilt in its fixed order.
     */
    method SetProperties(repoItems: seq<CompRepoItem>, bindHostnames: seq<string>)
      modifies this`waitingTasks, this`hostnamesToBind, this`processors
      ensures waitingTasks == old(waitingTasks) + ConnectTasks(repoItems)
      ensures hostnamesToBind == HostnamesToBind(bindHostnames)
      ensures processors == DefaultProcessors
    {
      for i := 0 to |repoItems|
        invariant waitingTasks == old(waitingTasks) + ConnectTasks(repoItems[..i])
      {
        assert repoItems[..i + 1][..i] == repoItems[..i];
        var repoItem := repoItems[i];
        if repoItem.port > 0 {
          waitingTasks := waitingTasks + [ConnectTask(PortPropsOf(repoItem))];
        }
      }
      assert repoItems[..|repoItems|] == repoItems;
      hostnamesToBind := Some(bindHostnames);
      if |bindHostnames| == 1 && bindHostnames[0] == "" {
        hostnamesToBind := None;
      }
      processors := [];
      processors := processors + [Handshake];
      processors := processors + [StreamFeatures];
      processors := processors + [StartTls];
      processors := processors + [Sasl];
      processors := processors + [Bind];
    }

    /** `getStatistics`: the number of hostnames (emptied ones too) and of connections. */
    method GetStatistics() returns (domains: nat, total: nat)
      ensures domains == |connections|
      ensures total == TotalConnections(connections)
    {
      domains := |connections|;
      total := 0;
      var rest := connections;
      while rest != map[]
        invariant total + TotalConnections(rest) == TotalConnections(connections)
        decreases |rest|
      {
        var h :| h in rest;
        TotalConnectionsWithout(rest, h);
        total := total + |rest[h]|;
        assert (rest - {h}).Keys == rest.Keys - {h};
        rest := rest - {h};
      }
    }

    /** `getStreamFeatures`: the processors' non-null feature lists, concatenated in order. */
    method GetStreamFeatures(features: ExtProcessor -> Option<seq<Element>>) returns (results: seq<Element>)
      ensures results == FeaturesOf(processors, features)
    {
      results := [];
      for k := 0 to |processors|
        invariant results == FeaturesOf(processors[..k], features)
      {
        assert processors[..k + 1][..k] == processors[..k];
        var procRes := features(processors[k]);
        if procRes.Some? {
          results := results + procRes.value;
        }
      }
      assert processors[..|processors|] == processors;
    }
  }
}
