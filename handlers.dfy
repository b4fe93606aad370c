/**
 * The stream-open handler table: built once from the three handlers'
 * namespace lists, looked up by the namespace a new stream declares.
 */
module Handlers {
  import opened Wrappers

  datatype StreamOpenHandler = JabberClient | ComponentAccept | ComponentConnect

  /** The handler that answers a stream open: a registered one or the fallback. */
  datatype HandlerChoice = Registered(handler: StreamOpenHandler) | UnknownXmlns

  type HandlerTable = map<string, StreamOpenHandler>

  /** `put(xmlns, h)` for each namespace of `xmlnss`, in order. */
  function PutAll(table: HandlerTable, xmlnss: seq<string>, h: StreamOpenHandler): (r: HandlerTable)
    decreases |xmlnss|
  {
    if xmlnss == [] then table
    else PutAll(table, xmlnss[..|xmlnss| - 1], h)[xmlnss[|xmlnss| - 1] := h]
  }

  /** Registration of one handler, whose namespace list may be null. */
  function Register(table: HandlerTable, xmlnss: Option<seq<string>>, h: StreamOpenHandler): (r: HandlerTable) {
    match xmlnss
    case None => table
    case Some(xs) => PutAll(table, xs, h)
  }

  /** After the puts, a namespace maps to `h` exactly when it was put, and keeps its old entry otherwise. */
  lemma {:induction false} PutAllLookup(table: HandlerTable, xs: seq<string>, h: StreamOpenHandler, ns: string)
    ensures ns in PutAll(table, xs, h) <==> ns in table || ns in xs
    ensures ns in xs ==> PutAll(table, xs, h)[ns] == h
    ensures ns in table && ns !in xs ==> PutAll(table, xs, h)[ns] == table[ns]
    decreases |xs|
  {
    if xs != [] {
      var xs0 := xs[..|xs| - 1];
      assert xs == xs0 + [xs[|xs| - 1]];
      PutAllLookup(table, xs0, h, ns);
    }
  }

  /** The registration loop for one handler of the constructor. */
  method RegisterHandler(table: HandlerTable, xmlnss: Option<seq<string>>, h: StreamOpenHandler)
    returns (r: HandlerTable)
    ensures r == Register(table, xmlnss, h)
  {
    r := table;
    if xmlnss.Some? {
      var xs := xmlnss.value;
      for i := 0 to |xs|
        invariant r == PutAll(table, xs[..i], h)
      {
        assert xs[..i + 1][..i] == xs[..i];
        r := r[xs[i] := h];
      }
      assert xs[..|xs|] == xs;
    }
  }

  /** The table the constructor builds: JabberClient, then ComponentAccept, then ComponentConnect. */
  function BuildTable(jabberClient: Option<seq<string>>, componentAccept: Option<seq<string>>,
                      componentConnect: Option<seq<string>>): (r: HandlerTable)
  {
    Register(Register(Register(map[], jabberClient, JabberClient), componentAccept, ComponentAccept),
             componentConnect, ComponentConnect)
  }

  predicate Lists(xmlnss: Option<seq<string>>, ns: string) {
    xmlnss.Some? && ns in xmlnss.value
  }

  /** Reference definition: the last handler in registration order that lists `ns`. */
  function LastRegistered(jabberClient: Option<seq<string>>, componentAccept: Option<seq<string>>,
                          componentConnect: Option<seq<string>>, ns: string): (r: Option<StreamOpenHandler>)
  {
    if Lists(componentConnect, ns) then Some(ComponentConnect)
    else if Lists(componentAccept, ns) then Some(ComponentAccept)
    else if Lists(jabberClient, ns) then Some(JabberClient)
    else None
  }

  lemma RegisterLookup(table: HandlerTable, xmlnss: Option<seq<string>>, h: StreamOpenHandler, ns: string)
    ensures ns in Register(table, xmlnss, h) <==> ns in table || Lists(xmlnss, ns)
    ensures Lists(xmlnss, ns) ==> Register(table, xmlnss, h)[ns] == h
    ensures ns in table && !Lists(xmlnss, ns) ==> Register(table, xmlnss, h)[ns] == table[ns]
  {
    if xmlnss.Some? {
      PutAllLookup(table, xmlnss.value, h, ns);
    }
  }

  /** The table holds a namespace iff some handler lists it, and then the last such handler wins. */
  lemma BuildTableLastWins(jabberClient: Option<seq<string>>, componentAccept: Option<seq<string>>,
                           componentConnect: Option<seq<string>>, ns: string)
    ensures var t := BuildTable(jabberClient, componentAccept, componentConnect);
      var owner := LastRegistered(jabberClient, componentAccept, componentConnect, ns);
      (ns in t <==> owner.Some?) && (ns in t ==> t[ns] == owner.value)
  {
    var t1 := Register(map[], jabberClient, JabberClient);
    var t2 := Register(t1, componentAccept, ComponentAccept);
    RegisterLookup(map[], jabberClient, JabberClient, ns);
    RegisterLookup(t1, componentAccept, ComponentAccept, ns);
    RegisterLookup(t2, componentConnect, ComponentConnect, ns);
  }

  /** `streamOpenHandlers.get(xmlns)`; a null namespace finds nothing. */
  function LookupHandler(table: HandlerTable, xmlns: Option<string>): (r: Option<StreamOpenHandler>)
    ensures r.Some? <==> xmlns.Some? && xmlns.value in table
    ensures r.Some? ==> r.value == table[xmlns.value]
  {
    if xmlns.Some? && xmlns.value in table then Some(table[xmlns.value]) else None
  }

  /** The choice `xmppStreamOpened` makes: the fallback for a missing or unregistered namespace. */
  function SelectStreamOpenHandler(table: HandlerTable, xmlns: Option<string>): (r: HandlerChoice)
    ensures r.UnknownXmlns? <==> xmlns.None? || xmlns.value !in table
    ensures r.Registered? ==> xmlns.Some? && r.handler == table[xmlns.value]
  {
    match LookupHandler(table, xmlns)
    case None => UnknownXmlns
    case Some(h) => Registered(h)
  }

  /**
   * On the constructor's table, the fallback answers exactly the streams
   * whose namespace is missing or listed by none of the three handlers.
   */
  lemma SelectOnBuiltTable(jabberClient: Option<seq<string>>, componentAccept: Option<seq<string>>,
                           componentConnect: Option<seq<string>>, xmlns: Option<string>)
    ensures var c := SelectStreamOpenHandler(BuildTable(jabberClient, componentAccept, componentConnect), xmlns);
      && (c.UnknownXmlns? <==> xmlns.None? || LastRegistered(jabberClient, componentAccept, componentConnect, xmlns.value).None?)
      && (c.Registered? ==> Some(c.handler) == LastRegistered(jabberClient, componentAccept, componentConnect, xmlns.value))
  {
    if xmlns.Some? {
      BuildTableLastWins(jabberClient, componentAccept, componentConnect, xmlns.value);
    }
  }
}
