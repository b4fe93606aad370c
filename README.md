# ComponentProtocol: a Dafny model

This project models the core of Tigase's external-component connection
manager, `ComponentProtocol` (XEP-0114 style component links). The class
keeps three things:

- a registry mapping each bound hostname to an ordered list of
  `ComponentConnection` records;
- the regex routings that send a hostname's traffic to this manager;
- the session lifecycle callbacks that keep the registry and the routings
  in step.

Around that core sit the stream-open handler table, the packet-processor
chain, the configuration step and the statistics counts.

Modules:

- `Wrappers`: `Option`.
- `Packets`: packets, routed envelopes, and the field that
  `hashCodeForPacket` keys on.
- `Sessions`: the `XmppIoService` session class, its session data, and
  the `ComponentConnection` record.
- `Registry`: the pure model of the registry and the routings:
  - removal, teardown and unbind as functions;
  - their invariants;
  - the statistics counts.
- `Handlers`: the stream-open handler table and how a handler is chosen.
- `Pipeline`: the processor chain, packet dispatch and stream features.
- `Config`: bind-hostnames parsing, with Java's `String.split` written
  out, and the connect tasks built from the repository items.
- `Protocol`: the class `ComponentProtocol`, whose methods update its
  fields in place. Most methods are proved against the functions of
  `Registry`, `Handlers`, `Pipeline` and `Config`. These four state their
  results directly instead: `GetXmppIoService`, `ServiceStarted`,
  `Authenticated` and `UpdateRoutings`.
- `Scenarios`: worked teardown examples.

The source's quirks are kept as written:

- An emptied hostname list keeps its key, and the key still counts as a
  domain.
- Duplicate connections are accepted.
- Outbound selection is first-connected-wins.
- `unbindHostname` takes the last matching connection.
- `unbindHostname` leaves the session's back-reference list alone, so a
  later `serviceStopped` repeats the removal.
- `bindHostname` adds the routings before it registers the connection.

Connections are compared by identity. The model gives each record a unique
id from a counter, so equality means identity.

## Model

| member | source | states |
|---|---|---|
| Protocol.ComponentProtocol.constructor | src/main/java/tigase/server/ext/ComponentProtocol.java:107-127 | the handler table is JabberClient's, then ComponentAccept's, then ComponentConnect's namespaces, each put overwriting earlier ones; the registry, routings and queues start empty |
| Protocol.ComponentProtocol.AddComponentConnection | src/main/java/tigase/server/ext/ComponentProtocol.java:280-303 | exactly one fresh connection is appended at the end of the hostname's list (the list is created if absent) and at the end of the session's back-reference list (created if absent); every other list is unchanged; the registry invariant is kept |
| Protocol.ComponentProtocol.RemoveComponentConnection | src/main/java/tigase/server/ext/ComponentProtocol.java:305-334 | the registry and result equal `Removal`: the first occurrence is dropped from that hostname's list only, the key stays, and the result is true iff a remaining member has a non-null connected service; an absent hostname changes nothing and gives false |
| Protocol.ComponentProtocol.GetXmppIoService | src/main/java/tigase/server/ext/ComponentProtocol.java:176-201 | the result is the service of the first connection in the elemToHost list whose service is non-null and connected; null iff there is no list or no such member |
| Protocol.ComponentProtocol.UpdateRoutings | src/main/java/tigase/server/ext/ComponentProtocol.java:479-499 | the routings gain (add) or lose (remove) exactly the given patterns |
| Protocol.ComponentProtocol.RemoveRoutings | src/main/java/tigase/server/ext/ComponentProtocol.java:370-380 | the routings lose exactly the hostname's three patterns |
| Protocol.ComponentProtocol.BindHostname | src/main/java/tigase/server/ext/ComponentProtocol.java:517-526 | the routings gain exactly the three patterns, and the connection is registered as by `addComponentConnection` |
| Protocol.ComponentProtocol.UnbindHostname | src/main/java/tigase/server/ext/ComponentProtocol.java:528-546 | the registry and routings equal `Unbind`: the last connection of the session in the hostname's list is removed; the routings are retracted only when no live connection survives; the back-reference list is untouched |
| Protocol.ComponentProtocol.Authenticated | src/main/java/tigase/server/ext/ComponentProtocol.java:501-515 | the session is marked authenticated and its hostname bound; with extra hostnames configured they are stored in the session data and the bind processor's start-up output is written iff the chain has a bind processor |
| Protocol.ComponentProtocol.TearDown | src/main/java/tigase/server/ext/ComponentProtocol.java:343-350 | the registry and routings after the loop over the back-reference list equal `StopAll` of the state before it |
| Protocol.ComponentProtocol.ServiceStopped | src/main/java/tigase/server/ext/ComponentProtocol.java:336-368 | when the superclass accepts the stop: every back-referenced connection is removed if the hostname is non-empty and the list exists, and exactly one reconnect task carrying the session data is queued iff the session is outbound; otherwise nothing changes; the result is the superclass's |
| Protocol.ComponentProtocol.ProcessSocketData | src/main/java/tigase/server/ext/ComponentProtocol.java:154-174 | the received queue is drained; the socket output and router output equal `Drain` of the old queue: every processor runs once per packet in chain order, and only unclaimed packets go to the router, unpacked if routed |
| Protocol.ComponentProtocol.RunProcessors | src/main/java/tigase/server/ext/ComponentProtocol.java:161-165 | every processor sees the packet once, in chain order; the processed flag is `Dispatch`'s claim, which `DispatchClaimedIff` ties to some processor claiming the packet, and the socket output is the processors' outputs concatenated in chain order (`Dispatch`) |
| Protocol.ComponentProtocol.HandlePacket | src/main/java/tigase/server/ext/ComponentProtocol.java:161-171 | handling one received packet appends the processors' output to the socket and appends the packet to the router output only when no processor claimed it, unpacked if it is routed (`Forwarded`) |
| Pipeline.DrainPrefixStep | src/main/java/tigase/server/ext/ComponentProtocol.java:157-172 | draining one packet more extends the socket output by that packet's dispatch output and the routed output by what it forwards, so the drain is one pass over the queue in order |
| Protocol.ComponentProtocol.XmppStreamOpened | src/main/java/tigase/server/ext/ComponentProtocol.java:206-230 | the reply is the one of the handler `SelectStreamOpenHandler` picks for the xmlns attribute |
| Protocol.ComponentProtocol.ServiceStarted | src/main/java/tigase/server/ext/ComponentProtocol.java:232-258 | a stream header is sent iff the repository item's namespace has a registered handler and it returns one; a session without a repository item is the source's null dereference and sends nothing |
| Protocol.ComponentProtocol.SetProperties | src/main/java/tigase/server/ext/ComponentProtocol.java:413-464 | one connect task per repository item with a positive port is queued in repository order; a bind-hostnames value of exactly [""] becomes none; the chain is Handshake, StreamFeatures, StartTLS, SASL, Bind |
| Protocol.ComponentProtocol.GetStatistics | src/main/java/tigase/server/ext/ComponentProtocol.java:466-477 | the domain count is the number of keys, emptied lists included; the connection count is the total length of all lists |
| Protocol.ComponentProtocol.GetStreamFeatures | src/main/java/tigase/server/ext/ComponentProtocol.java:559-569 | the result is the processors' non-null feature lists concatenated in chain order |
| Packets.UnpackRouted | src/main/java/tigase/server/ext/ComponentProtocol.java:167-169 | unpacking a routed packet removes exactly one envelope |
| Packets.Deliverable | src/main/java/tigase/server/ext/ComponentProtocol.java:166-171 | a routed packet loses one envelope; any other packet is passed on as is |
| Packets.UnpackWrapped | src/main/java/tigase/server/ext/ComponentProtocol.java:167-169 | the packet sent on for a routed wrapper is the wrapped packet |
| Packets.HashSourceOf | src/main/java/tigase/server/ext/ComponentProtocol.java:137-146 | the thread key is elemTo iff elemTo is set, else to iff to is set, else the superclass's choice |
| Packets.HashCodeForPacket | src/main/java/tigase/server/ext/ComponentProtocol.java:137-146 | the thread hash is the hash of elemTo when it is set, else of to when that is set, else the superclass's hash of the packet |
| Packets.SameElemToSameThread | src/main/java/tigase/server/ext/ComponentProtocol.java:137-146 | two packets with the same elemTo are given the same thread key whatever their other fields |
| Config.Fields | src/main/java/tigase/server/ext/ComponentProtocol.java:404 | splitting at every comma gives at least one field |
| Config.FieldsJoin | src/main/java/tigase/server/ext/ComponentProtocol.java:404 | the fields joined back with commas give the input, and no field holds a comma |
| Config.DropTrailingEmptyShape | src/main/java/tigase/server/ext/ComponentProtocol.java:404 | dropping trailing empty strings keeps a prefix, removes only empty strings, and leaves no empty last element |
| Config.JavaSplit | src/main/java/tigase/server/ext/ComponentProtocol.java:404 | Java's `split(",")`: the text itself when it has no comma; otherwise a prefix of the full field list that drops only trailing empty fields and does not end in an empty one; no piece holds a comma |
| Config.BindHostnamesDefault | src/main/java/tigase/server/ext/ComponentProtocol.java:402-407 | an absent parameter gives `[""]`; a present one gives comma-free pieces that are a prefix of its fields, and the text itself when it has no comma |
| Config.NoExtraHostnamesIff | src/main/java/tigase/server/ext/ComponentProtocol.java:448-451 | a bind-hostnames parameter yields no extra hostnames iff it is absent or empty |
| Config.LoneCommaBindsEmptyList | src/main/java/tigase/server/ext/ComponentProtocol.java:402-407 | the parameter "," yields an empty, non-null list of extra hostnames |
| Config.ConnectTasksCount | src/main/java/tigase/server/ext/ComponentProtocol.java:428-446 | the number of connect tasks equals the number of repository items with a positive port |
| Config.ConnectTasksMembership | src/main/java/tigase/server/ext/ComponentProtocol.java:428-446 | a connect task is queued iff it carries the port properties of an item with a positive port |
| Handlers.PutAllLookup | src/main/java/tigase/server/ext/ComponentProtocol.java:109-113 | after putting a namespace list the table has exactly the old keys plus the list; listed namespaces map to the handler, others keep their entry |
| Handlers.RegisterHandler | src/main/java/tigase/server/ext/ComponentProtocol.java:109-113 | the loop over a handler's namespaces builds `Register` of the table; a handler without a namespace list changes nothing |
| Handlers.RegisterLookup | src/main/java/tigase/server/ext/ComponentProtocol.java:109-125 | after registering a handler the table has exactly the old keys plus its namespaces, mapped to it; other entries are kept |
| Handlers.BuildTableLastWins | src/main/java/tigase/server/ext/ComponentProtocol.java:107-127 | a namespace is in the table iff some handler lists it, and it maps to the last handler in registration order that lists it |
| Handlers.LookupHandler | src/main/java/tigase/server/ext/ComponentProtocol.java:216 | the lookup finds a handler iff the xmlns is present and in the table, and then the table's entry |
| Handlers.SelectStreamOpenHandler | src/main/java/tigase/server/ext/ComponentProtocol.java:216-225 | the unknown-namespace handler is chosen exactly when the xmlns is null or has no entry; otherwise the table's entry |
| Handlers.SelectOnBuiltTable | src/main/java/tigase/server/ext/ComponentProtocol.java:216-225 | on the constructor's table the choice is unknown iff no handler lists the xmlns, and otherwise the last handler listing it |
| Pipeline.DispatchClaimedIff | src/main/java/tigase/server/ext/ComponentProtocol.java:162-165 | a packet counts as processed iff some processor in the chain claims it |
| Pipeline.DispatchSnoc | src/main/java/tigase/server/ext/ComponentProtocol.java:162-165 | one more processor at the end of the chain adds its output after the earlier ones and ORs its claim |
| Pipeline.DefaultChainRunsEveryProcessorInOrder | src/main/java/tigase/server/ext/ComponentProtocol.java:162-165 | with the configured chain the socket receives Handshake's, StreamFeatures', StartTLS's, SASL's and Bind's output in that order, and the packet is processed iff one of them claims it |
| Pipeline.ForwardedIffUnclaimed | src/main/java/tigase/server/ext/ComponentProtocol.java:166-171 | a packet goes to the router iff no processor claims it, and then with exactly one envelope less if routed |
| Pipeline.DrainRouting | src/main/java/tigase/server/ext/ComponentProtocol.java:157-172 | draining never routes more packets than it takes; it routes none when all are claimed, and all of them (unpacked, in order) when none is |
| Pipeline.FeaturesOfMembership | src/main/java/tigase/server/ext/ComponentProtocol.java:562-567 | an element is advertised iff some processor's non-null feature list holds it |
| Pipeline.FeaturesOfSnoc | src/main/java/tigase/server/ext/ComponentProtocol.java:562-567 | one more processor adds its feature list (nothing for null) at the end |
| Pipeline.DefaultFeaturesOrder | src/main/java/tigase/server/ext/ComponentProtocol.java:559-569 | with the configured chain the features are Handshake's, StreamFeatures', StartTLS's, SASL's and Bind's lists in that order |
| Registry.PatternsAreThree | src/main/java/tigase/server/ext/ComponentProtocol.java:519 | a hostname has exactly three distinct routing patterns |
| Registry.PatternsDetermineHostname | src/main/java/tigase/server/ext/ComponentProtocol.java:370-372 | if one hostname's patterns all belong to another hostname's set, the two hostnames are equal; so retracting one hostname's patterns never retracts another's whole set |
| Registry.PatternsMayOverlap | src/main/java/tigase/server/ext/ComponentProtocol.java:519 | distinct hostnames can share a pattern: "b" and ".*@b" both yield ".*@b" |
| Registry.FirstIndex | src/main/java/tigase/server/ext/ComponentProtocol.java:313 | the index found holds the connection and no earlier element does |
| Registry.RemoveFirst | src/main/java/tigase/server/ext/ComponentProtocol.java:313 | removal takes away exactly one copy of the connection, or nothing if it is absent |
| Registry.RemoveFirstDeletesFirstOccurrence | src/main/java/tigase/server/ext/ComponentProtocol.java:313 | removal deletes the first occurrence and keeps the order of the others |
| Registry.RemovalShape | src/main/java/tigase/server/ext/ComponentProtocol.java:305-334 | a removal keeps every key, changes only the named list, and reports true iff that list still has a live member |
| Registry.RemovalOfAbsent | src/main/java/tigase/server/ext/ComponentProtocol.java:313-328 | removing a connection already gone leaves the registry as it is and reports whether a live member remains |
| Registry.RemovalShrinksServices | src/main/java/tigase/server/ext/ComponentProtocol.java:313 | a removal never adds a service to the registry |
| Registry.RemovalDependsOnRegistryServices | src/main/java/tigase/server/ext/ComponentProtocol.java:319-328 | the result of a removal depends only on the liveness of services in the registry |
| Registry.FreshNotRegistered | src/main/java/tigase/server/ext/ComponentProtocol.java:282 | a connection just created is in no list |
| Registry.RemovalWellFormed | src/main/java/tigase/server/ext/ComponentProtocol.java:305-334 | a removal keeps every list made of connections of its own hostname |
| Registry.MemberLiveness | src/main/java/tigase/server/ext/ComponentProtocol.java:319-321 | a registered connection counts as live iff its service is non-null and connected |
| Registry.RemovalLiveness | src/main/java/tigase/server/ext/ComponentProtocol.java:319-321 | the same holds for every connection that survives a removal |
| Registry.LiveInAgrees | src/main/java/tigase/server/ext/ComponentProtocol.java:345-350 | while only the registry changes, the liveness of its services is the liveness taken at the start of the loop |
| Registry.DeadStaysDead | src/main/java/tigase/server/ext/ComponentProtocol.java:313-328 | a hostname with no live connection still has none after a removal |
| Registry.RetractedStep | src/main/java/tigase/server/ext/ComponentProtocol.java:345-350 | one teardown step retracts a pattern iff it belongs to the step's domain and no live connection survives there |
| Registry.StopAllRoutings | src/main/java/tigase/server/ext/ComponentProtocol.java:345-350 | after the teardown a pattern is routed iff it was before and no torn-down domain whose patterns include it is left without a live connection |
| Registry.StopAllKeepsHostnames | src/main/java/tigase/server/ext/ComponentProtocol.java:345-350 | teardown never removes a hostname key |
| Registry.StopAllContents | src/main/java/tigase/server/ext/ComponentProtocol.java:345-350 | after the teardown each hostname's list has lost exactly the torn-down connections of that domain, as a multiset |
| Registry.AnyLiveAfterRemoval | src/main/java/tigase/server/ext/ComponentProtocol.java:313-323 | a live survivor of a removal was a live member of the list before it |
| Registry.BindRoutedWhileLive | src/main/java/tigase/server/ext/ComponentProtocol.java:517-526 | binding a hostname keeps every hostname with a live connection routed |
| Registry.RemoveAndUnrouteRoutedWhileLive | src/main/java/tigase/server/ext/ComponentProtocol.java:346-349 | one removal-and-retraction step keeps every hostname with a live connection routed, provided the step's domain shares no pattern with another hostname |
| Registry.StopAllRoutedWhileLive | src/main/java/tigase/server/ext/ComponentProtocol.java:343-350 | the whole teardown keeps every hostname with a live connection routed, under the same proviso for each torn-down domain |
| Registry.UnbindRoutedWhileLive | src/main/java/tigase/server/ext/ComponentProtocol.java:528-546 | unbinding keeps every hostname with a live connection routed, under the same proviso |
| Registry.LastIndexOfService | src/main/java/tigase/server/ext/ComponentProtocol.java:533-537 | the index found is the last one whose service is the session's; none iff there is no such index |
| Registry.UnbindThenStopRetriesRemoval | src/main/java/tigase/server/ext/ComponentProtocol.java:343-349 | after an unbind, stopping the session retries the unbound connection: the registry is unchanged and the routings are retracted again unless a live connection remains |
| Registry.RemoveFirstOfAppended | src/main/java/tigase/server/ext/ComponentProtocol.java:297 | removing a connection appended last to a list that did not hold it gives back the list |
| Registry.AppendThenRemove | src/main/java/tigase/server/ext/ComponentProtocol.java:289-313 | adding a fresh connection and removing it restores the registry, except that a new hostname keeps an empty list |
| Registry.TotalConnectionsWithout | src/main/java/tigase/server/ext/ComponentProtocol.java:473-475 | the connection total does not depend on the order the lists are summed in |
| Registry.TotalConnectionsUpdate | src/main/java/tigase/server/ext/ComponentProtocol.java:473-475 | replacing one list changes the total by the difference in length |
| Registry.AppendedCounts | src/main/java/tigase/server/ext/ComponentProtocol.java:470-476 | adding a connection adds one to the total, and one to the domains only for a new hostname |
| Registry.RemovalCounts | src/main/java/tigase/server/ext/ComponentProtocol.java:470-476 | a removal never changes the domain count and takes one from the total iff the connection was listed |
| Scenarios.TwoSessionsShareHostname | src/main/java/tigase/server/ext/ComponentProtocol.java:336-368 | with two sessions on one hostname, stopping the first keeps the routings; stopping the second empties the list, keeps the key and retracts the routings |
| Scenarios.DuplicateConnectionsBothRemoved | src/main/java/tigase/server/ext/ComponentProtocol.java:345-350 | a session that bound a hostname twice has both connections removed, and only that hostname's routings are retracted |

## Left out

- Socket and stream I/O are logs and queues on the session object:
  - `writePacketsToSocket` appends to `written`;
  - `xmppStreamOpen` appends to `streamOpens`;
  - `getReceivedPackets` is the `receivedPackets` queue;
  - `addOutPacket` appends to `outPackets`.
- The `ConnectionManager` superclass is not part of this model:
  - `addWaitingTask` appends to `waitingTasks`;
  - `addRegexRouting` and `removeRegexRouting` are set union and difference;
  - `super.serviceStopped` is a boolean parameter;
  - `super.serviceStarted` and `super.setProperties` are left out;
  - superclass hashing, reconnect timers and `getMaxInactiveTime` are left out.
- Processor and stream-open handler internals are parameters, not models:
  - processors are an oracle returning (claimed, output);
  - stream features are an oracle returning a list or null;
  - handler replies are an oracle;
  - the bind processor's start-up output is a parameter;
  - handshake, STARTTLS (section 5 of RFC 6120), SASL (section 6 of RFC 6120) and resource binding (section 7 of RFC 6120) are not modelled;
  - the handler namespace lists are constructor parameters.
- Regex semantics: routing patterns are plain strings.
- Protocol.ComponentProtocol.ProcessSocketData: processors get the coordinator itself in the source and may call back into `authenticated`, `bindHostname` and `unbindHostname`. Such callbacks change the session data, the registry and the routings while the queue is being drained, and they let a later processor see what an earlier one did. Here a processor is a pure oracle, so none of these callbacks or session-state effects is modelled. The frame's guarantee that the registry, routings and session data stay fixed during dispatch follows from that oracle, not from the source.
- Registry.RoutedWhileLive: only one direction of "a hostname's patterns are routed iff it has a live connection" is proved, and the full equivalence does not hold for the source, for three reasons:
  - `connected` changes outside this core, so a hostname whose connections all drop keeps its routings until a removal on it runs;
  - a removal retracts as soon as no live sibling is left, even though dead siblings stay listed;
  - distinct hostnames can share a pattern (`Registry.PatternsMayOverlap`). Retraction can then remove a pattern that a live hostname still needs, so the preservation lemmas require the torn-down domain's patterns to be disjoint from every other hostname's.
- `String.hashCode` values: hashing is a parameter, and only the choice of field is modelled.
- Concurrency: `synchronized`, `CopyOnWriteArrayList`, `ConcurrentSkipListMap` and `processingThreads` are left out. The model is single-threaded.
- Logging, the `StatisticsList` API and `updateServiceDiscoveryItem`: no events are recorded. `getStatistics` returns its two counts.
- Reflective repository loading (`Class.forName`), `getDefaults`' other defaults, `identity_type`, `getCompRepoItem` and `initBindings`: no repository class is modelled. `SetProperties` takes the repository's items as a sequence.
- `getDefaults` keeps only its bind-hostnames split (`Config.BindHostnamesDefault`).
- `getProcessor` and `getStreamOpenHandler` are plain lookups. They appear as `Bind in processors` and `Handlers.LookupHandler`. Processor ids are taken to be distinct, so the processor map is a sequence in insertion order.
- Connect-task port properties: the socket type, interface list and reconnect limit are constants of unseen classes, so `PortProps` holds only the port, hosts, connection type and repository item.
- `isConnected` and the session's hostname are set by the transport and the handshake. The model only reads them.
- Protocol.ComponentProtocol.Authenticated: requires a hostname in the session data. Without one the source still has effects before it throws:
  - it sets the authenticated flag;
  - it tries to route `null`, `".*@null"` and `".*\\.null"`, and the routing code swallows a failure on any of them;
  - it appends the new connection to the session's back-reference list;
  - only then does it throw, because the skip-list map looks up a null key.
  The model leaves out this path and its partial effects.
- Protocol.ComponentProtocol.GetXmppIoService: the packet's `getElemToHost` is taken to be non-null. A null hostname would throw in the skip-list map.
- Protocol.ComponentProtocol.ServiceStarted: a missing repository item is a null dereference in the source. The model reports it as `npe`.
- Protocol.ComponentProtocol.ServiceStopped: the queued reconnect task holds a snapshot of the session data. The source hands over the session's live map.
