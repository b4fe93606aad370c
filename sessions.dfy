/**
 * The session objects the protocol is handed by its connection manager, and
 * the component connections it attaches to them.
 */
module Sessions {
  import opened Wrappers
  import opened Packets

  /** `accept`: the remote component dialled us; `connect`: we dialled it. */
  datatype ConnectionType = Accept | Connect

  /** A configured external component, as the repository stores it. */
  datatype CompRepoItem = CompRepoItem(
    domain: Option<string>,
    port: int,
    remoteHost: Option<string>,
    connectionType: ConnectionType,
    xmlns: Option<string>)

  /** The session-data entries this core reads or writes. */
  datatype SessionData = SessionData(
    hostname: Option<string>,
    authenticated: bool,
    repoItem: Option<CompRepoItem>,
    bindHostnames: Option<seq<string>>)

  /**
   * One transport session. `refObject` is the back-reference list of the
   * component connections bound to it; `None` until the first bind.
   * `receivedPackets` is its input queue, `written` what was written to its
   * socket and `streamOpens` the stream headers it was told to send.
   */
  class XmppIoService {
    const connectionType: ConnectionType
    var connected: bool
    var sessionData: SessionData
    var refObject: Option<seq<ComponentConnection>>
    var receivedPackets: seq<Packet>
    var written: seq<Packet>
    var streamOpens: seq<string>

    constructor (connectionType: ConnectionType, sessionData: SessionData, received: seq<Packet>)
      ensures this.connectionType == connectionType && this.sessionData == sessionData
      ensures connected && refObject.None? && receivedPackets == received
      ensures written == [] && streamOpens == []
    {
      this.connectionType := connectionType;
      this.sessionData := sessionData;
      connected := true;
      refObject := None;
      receivedPackets := received;
      written := [];
      streamOpens := [];
    }
  }

  /**
   * One binding of a domain to a session. `id` stands for the object
   * identity of the Java record, so two connections are equal exactly when
   * they are the same record.
   */
  datatype ComponentConnection = ComponentConnection(id: nat, domain: string, service: XmppIoService?)
}
