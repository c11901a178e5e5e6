/**
 The encrypted channel between a client and the server: both ends as steps
 over two first-in-first-out links, from the handshake through all requests.
 Encryption is ideal: a frame opens exactly under its own key and number.
 */
module SecureChannel {
  import opened Wrappers

  /** The keys of one connection, one for each direction. Every connection derives new ones. */
  datatype Key = Key(connection: nat, toServer: bool)

  datatype Body =
    | Signature
    | Accept
    | RateLimited
    | Ack
    | Request(id: nat, opcode: nat)
    | Response(id: nat, opcode: nat)

  datatype Frame = Frame(key: Key, seqNo: nat, body: Body)

  type Link = seq<Frame>

  // ---------- One end ----------

  /** An end's keys and its two counters. */
  datatype End = End(sendKey: Key, recvKey: Key, sendSeq: nat, recvSeq: nat)

  function Seal(e: End, body: Body): Frame { Frame(e.sendKey, e.sendSeq, body) }

  /** The checks of a receiver that expects the number `n`: first the number, then decryption. */
  predicate Opens(e: End, n: nat, f: Frame) { f.seqNo == n && f.key == e.recvKey }

  /** What an end accepts of the frames that it is given one after the other, with whatever comes in between. */
  function Accepted(e: End, link: Link): (frames: Link)
    decreases link
  {
    if link == [] then []
    else if Opens(e, e.recvSeq, link[0]) then [link[0]] + Accepted(e.(recvSeq := e.recvSeq + 1), link[1..])
    else Accepted(e, link[1..])
  }

  /**
   Whatever a link delivers, also frames again or out of order, the accepted
   ones carry the receiver's key and consecutive numbers: no frame is accepted
   twice.
   */
  lemma {:induction false} AcceptedInOrder(e: End, link: Link)
    ensures forall i :: 0 <= i < |Accepted(e, link)| ==>
              Accepted(e, link)[i].key == e.recvKey && Accepted(e, link)[i].seqNo == e.recvSeq + i
    ensures forall i, j :: 0 <= i < j < |Accepted(e, link)| ==> Accepted(e, link)[i] != Accepted(e, link)[j]
    decreases link
  {
    if link != [] {
      if Opens(e, e.recvSeq, link[0]) {
        AcceptedInOrder(e.(recvSeq := e.recvSeq + 1), link[1..]);
      } else {
        AcceptedInOrder(e, link[1..]);
      }
    }
  }

  /** The client's channel object. */
  class ClientChannel {
    const sendKey: Key
    const recvKey: Key
    var sendSeq: nat
    var recvSeq: nat

    ghost function State(): End
      reads this
    {
      End(sendKey, recvKey, sendSeq, recvSeq)
    }

    /** The counters as _handshake sets them before its first frame. */
    constructor (sendKey: Key, recvKey: Key)
      ensures State() == End(sendKey, recvKey, 0, 0)
    {
      this.sendKey, this.recvKey, sendSeq, recvSeq := sendKey, recvKey, 0, 0;
    }

    /** _send_secure. */
    method SendSecure(link: Link, body: Body) returns (link': Link)
      modifies this
      ensures link' == link + [Seal(old(State()), body)]
      ensures State() == old(State()).(sendSeq := old(sendSeq) + 1)
    {
      link' := link + [Frame(sendKey, sendSeq, body)];
      sendSeq := sendSeq + 1;
    }

    /** _recv_secure: a wrong number or a failed decryption raises an exception and leaves the counter alone. */
    method RecvSecure(link: Link) returns (ok: bool, body: Body, link': Link)
      requires link != []
      modifies this
      ensures link' == link[1..] && body == link[0].body
      ensures ok <==> link[0].seqNo == old(recvSeq) && link[0].key == recvKey
      ensures State() == if ok then old(State()).(recvSeq := old(recvSeq) + 1) else old(State())
    {
      var f := link[0];
      body, link', ok := f.body, link[1..], false;
      if f.seqNo != recvSeq || f.key != recvKey {
        return;
      }
      recvSeq := recvSeq + 1;
      ok := true;
    }
  }

  /** The server's channel record. */
  class ServerChannel {
    const sendKey: Key
    const recvKey: Key
    var sendSeq: nat
    var recvSeq: nat

    ghost function State(): End
      reads this
    {
      End(sendKey, recvKey, sendSeq, recvSeq)
    }

    constructor (sendKey: Key, recvKey: Key)
      ensures State() == End(sendKey, recvKey, 0, 0)
    {
      this.sendKey, this.recvKey, sendSeq, recvSeq := sendKey, recvKey, 0, 0;
    }

    /** The number is an argument: the handshake passes 0, everything after it a counter. */
    method ReadSecureFrame(link: Link, expected: nat) returns (ok: bool, body: Body, link': Link)
      requires link != []
      ensures link' == link[1..] && body == link[0].body
      ensures ok <==> Opens(State(), expected, link[0])
    {
      var f := link[0];
      body, link' := f.body, link[1..];
      ok := f.seqNo == expected && f.key == recvKey;
    }

    /** ReadSecureMessage up to its checks of the header. */
    method ReadSecureMessage(link: Link) returns (ok: bool, body: Body, link': Link)
      requires link != []
      modifies this
      ensures link' == link[1..] && body == link[0].body
      ensures ok <==> link[0].seqNo == old(recvSeq) && link[0].key == recvKey
      ensures State() == if ok then old(State()).(recvSeq := old(recvSeq) + 1) else old(State())
    {
      ok, body, link' := ReadSecureFrame(link, recvSeq);
      if ok {
        recvSeq := recvSeq + 1;
      }
    }

    /** WriteSecureFrame: here too the number is an argument, and no counter moves. */
    method WriteSecureFrame(link: Link, n: nat, body: Body) returns (link': Link)
      ensures link' == link + [Frame(sendKey, n, body)]
    {
      link' := link + [Frame(sendKey, n, body)];
    }

    /** SendStatus on an encrypted connection. */
    method SendStatus(link: Link, body: Body) returns (link': Link)
      modifies this
      ensures link' == link + [Seal(old(State()), body)]
      ensures State() == old(State()).(sendSeq := old(sendSeq) + 1)
    {
      link' := WriteSecureFrame(link, sendSeq, body);
      sendSeq := sendSeq + 1;
    }
  }

  // ---------- One connection: client, server and two links ----------

  datatype ClientPhase = Disconnected | AwaitAccept | Ready | AwaitResponse(id: nat, opcode: nat) | ClientFault

  datatype ServerPhase = NoPeer | AwaitSignature | Deciding | AwaitAck | AwaitRequest | Handling(id: nat, opcode: nat)
    | ServerFault

  /** `serverSent` counts the frames that the server has encrypted on this connection. */
  datatype Conn = Conn(
    client: End, clientPhase: ClientPhase,
    server: End, serverPhase: ServerPhase,
    toServer: Link, toClient: Link, serverSent: nat)

  datatype Action =
    | ServerReadsSignature
    | ServerAccepts
    | ServerRejects
    | ClientReadsVerdict
    | ServerReadsAck
    | ClientRequests(id: nat, opcode: nat)
    | ServerReadsRequest
    | ServerResponds
    | ClientReadsResponse
    | ClientCloses
    | ServerCloses

  function ClientSends(c: Conn, body: Body): Conn {
    c.(toServer := c.toServer + [Seal(c.client, body)], client := c.client.(sendSeq := c.client.sendSeq + 1))
  }

  /** A frame of the server with the number `n`; the counters stay as they are. */
  function ServerSends(c: Conn, n: nat, body: Body): Conn {
    c.(toClient := c.toClient + [Frame(c.server.sendKey, n, body)], serverSent := c.serverSent + 1)
  }

  /** A new socket, the hellos, both ends' new keys, and the client's signature as frame 0. */
  function Opened(k: nat): Conn {
    var up, down := Key(k, true), Key(k, false);
    ClientSends(Conn(End(up, down, 0, 0), AwaitAccept, End(down, up, 0, 0), AwaitSignature, [], [], 0), Signature)
  }

  /** ReadSecureFrame with the literal number 0; the counters are not touched. */
  function DoReadSignature(c: Conn): Conn
    requires c.toServer != []
  {
    var f := c.toServer[0];
    if Opens(c.server, 0, f) && f.body.Signature? then c.(toServer := c.toServer[1..], serverPhase := Deciding)
    else c.(serverPhase := ServerFault)
  }

  /** The accepting frame has the literal number 0; only then are both counters set to 1. */
  function DoAccept(c: Conn): Conn {
    var t := ServerSends(c, 0, Accept);
    t.(server := t.server.(sendSeq := 1, recvSeq := 1), serverPhase := AwaitAck)
  }

  /** The refusal also has number 0, and the server closes its socket behind it. */
  function DoReject(c: Conn): Conn {
    ServerSends(c, 0, RateLimited).(serverPhase := NoPeer)
  }

  function DoReadVerdict(c: Conn): Conn
    requires c.toClient != []
  {
    var f := c.toClient[0];
    if !Opens(c.client, c.client.recvSeq, f) then c.(clientPhase := ClientFault)
    else
      var t := c.(toClient := c.toClient[1..], client := c.client.(recvSeq := c.client.recvSeq + 1));
      match f.body
      case RateLimited => t.(clientPhase := Disconnected)
      case Accept => ClientSends(t.(client := t.client.(sendSeq := 1, recvSeq := 1), clientPhase := Ready), Ack)
      case _ => t.(clientPhase := ClientFault)
  }

  /** A frame that the server reads with its counter. */
  function DoServerReads(c: Conn): Conn
    requires c.toServer != []
  {
    var f := c.toServer[0];
    if !Opens(c.server, c.server.recvSeq, f) then c.(serverPhase := ServerFault)
    else
      var t := c.(toServer := c.toServer[1..], server := c.server.(recvSeq := c.server.recvSeq + 1));
      match f.body
      case Ack => t.(serverPhase := if c.serverPhase.AwaitAck? then AwaitRequest else ServerFault)
      case Request(id, opcode) => t.(serverPhase := if c.serverPhase.AwaitRequest? then Handling(id, opcode) else ServerFault)
      case _ => t.(serverPhase := ServerFault)
  }

  function DoRequest(c: Conn, id: nat, opcode: nat): Conn {
    ClientSends(c.(clientPhase := AwaitResponse(id, opcode)), Request(id, opcode))
  }

  /** SendStatus: the response repeats the opcode and the id of the request. */
  function DoRespond(c: Conn): Conn
    requires c.serverPhase.Handling?
  {
    var t := ServerSends(c, c.server.sendSeq, Response(c.serverPhase.id, c.serverPhase.opcode));
    t.(server := t.server.(sendSeq := t.server.sendSeq + 1), serverPhase := AwaitRequest)
  }

  /** _request after sending: the response must carry the id and the opcode that were sent. */
  function DoReadResponse(c: Conn): Conn
    requires c.toClient != [] && c.clientPhase.AwaitResponse?
  {
    var f := c.toClient[0];
    if !Opens(c.client, c.client.recvSeq, f) then c.(clientPhase := ClientFault)
    else
      c.(toClient := c.toClient[1..], client := c.client.(recvSeq := c.client.recvSeq + 1),
         clientPhase := if f.body == Response(c.clientPhase.id, c.clientPhase.opcode) then Ready else ClientFault)
  }

  /** When an action can happen; a read waits for a frame. Either end may close at any moment, and the other goes on. */
  predicate Enabled(c: Conn, a: Action) {
    match a
    case ServerReadsSignature => c.serverPhase.AwaitSignature? && c.toServer != []
    case ServerAccepts => c.serverPhase.Deciding?
    case ServerRejects => c.serverPhase.Deciding?
    case ClientReadsVerdict => c.clientPhase.AwaitAccept? && c.toClient != []
    case ServerReadsAck => c.serverPhase.AwaitAck? && c.toServer != []
    case ClientRequests(_, _) => c.clientPhase.Ready?
    case ServerReadsRequest => c.serverPhase.AwaitRequest? && c.toServer != []
    case ServerResponds => c.serverPhase.Handling?
    case ClientReadsResponse => c.clientPhase.AwaitResponse? && c.toClient != []
    case ClientCloses => !c.clientPhase.Disconnected?
    case ServerCloses => !c.serverPhase.NoPeer?
  }

  function Move(c: Conn, a: Action): Conn
    requires Enabled(c, a)
  {
    match a
    case ServerReadsSignature => DoReadSignature(c)
    case ServerAccepts => DoAccept(c)
    case ServerRejects => DoReject(c)
    case ClientReadsVerdict => DoReadVerdict(c)
    case ServerReadsAck => DoServerReads(c)
    case ClientRequests(id, opcode) => DoRequest(c, id, opcode)
    case ServerReadsRequest => DoServerReads(c)
    case ServerResponds => DoRespond(c)
    case ClientReadsResponse => DoReadResponse(c)
    case ClientCloses => c.(clientPhase := Disconnected)
    case ServerCloses => c.(serverPhase := NoPeer)
  }

  // ---------- The channel objects make these moves ----------

  method ClientOpens(k: nat) returns (channel: ClientChannel, c: Conn)
    ensures fresh(channel) && c == Opened(k) && channel.State() == c.client
  {
    var up, down := Key(k, true), Key(k, false);
    channel := new ClientChannel(up, down);
    var link := channel.SendSecure([], Signature);
    c := Conn(End(up, down, 1, 0), AwaitAccept, End(down, up, 0, 0), AwaitSignature, link, [], 0);
  }

  method ServerReadsFirst(c: Conn, channel: ServerChannel) returns (c': Conn)
    requires Enabled(c, ServerReadsSignature) && channel.State() == c.server
    ensures c' == DoReadSignature(c) && channel.State() == c'.server
  {
    var ok, body, link := channel.ReadSecureFrame(c.toServer, 0);
    c' := if ok && body.Signature? then c.(toServer := link, serverPhase := Deciding) else c.(serverPhase := ServerFault);
  }

  method ServerDecides(c: Conn, channel: ServerChannel, accept: bool) returns (c': Conn)
    requires c.serverPhase.Deciding? && channel.State() == c.server
    modifies channel
    ensures c' == (if accept then DoAccept(c) else DoReject(c)) && channel.State() == c'.server
  {
    var link := channel.WriteSecureFrame(c.toClient, 0, if accept then Accept else RateLimited);
    c' := c.(toClient := link, serverSent := c.serverSent + 1);
    if accept {
      channel.recvSeq, channel.sendSeq := 1, 1;
      c' := c'.(server := c.server.(sendSeq := 1, recvSeq := 1), serverPhase := AwaitAck);
    } else {
      c' := c'.(serverPhase := NoPeer);
    }
  }

  method ClientReadsDecision(c: Conn, channel: ClientChannel) returns (c': Conn)
    requires Enabled(c, ClientReadsVerdict) && channel.State() == c.client
    modifies channel
    ensures c' == DoReadVerdict(c) && channel.State() == c'.client
  {
    var ok, body, link := channel.RecvSecure(c.toClient);
    if !ok {
      return c.(clientPhase := ClientFault);
    }
    c' := c.(toClient := link, client := c.client.(recvSeq := c.client.recvSeq + 1), clientPhase := ClientFault);
    if body.RateLimited? {
      c' := c'.(clientPhase := Disconnected);
    } else if body.Accept? {
      channel.sendSeq, channel.recvSeq := 1, 1;
      var up := channel.SendSecure(c.toServer, Ack);
      c' := c'.(client := c'.client.(sendSeq := 2, recvSeq := 1), clientPhase := Ready, toServer := up);
    }
  }

  method ServerReadsNext(c: Conn, channel: ServerChannel) returns (c': Conn)
    requires (Enabled(c, ServerReadsAck) || Enabled(c, ServerReadsRequest)) && channel.State() == c.server
    modifies channel
    ensures c' == DoServerReads(c) && channel.State() == c'.server
    ensures c'.serverPhase.Handling? ==>
              c.serverPhase.AwaitRequest? &&
              c.toServer[0] == Frame(c.server.recvKey, c.server.recvSeq, Request(c'.serverPhase.id, c'.serverPhase.opcode))
    ensures c'.serverPhase.AwaitRequest? <==>
            c.serverPhase.AwaitAck? && c.toServer[0] == Frame(c.server.recvKey, c.server.recvSeq, Ack)
  {
    var ok, body, link := channel.ReadSecureMessage(c.toServer);
    if !ok {
      return c.(serverPhase := ServerFault);
    }
    c' := c.(toServer := link, server := c.server.(recvSeq := c.server.recvSeq + 1), serverPhase := ServerFault);
    if body.Ack? && c.serverPhase.AwaitAck? {
      c' := c'.(serverPhase := AwaitRequest);
    } else if body.Request? && c.serverPhase.AwaitRequest? {
      c' := c'.(serverPhase := Handling(body.id, body.opcode));
    }
  }

  method ClientAsks(c: Conn, channel: ClientChannel, id: nat, opcode: nat) returns (c': Conn)
    requires Enabled(c, ClientRequests(id, opcode)) && channel.State() == c.client
    modifies channel
    ensures c' == DoRequest(c, id, opcode) && channel.State() == c'.client
  {
    var link := channel.SendSecure(c.toServer, Request(id, opcode));
    c' := c.(clientPhase := AwaitResponse(id, opcode), toServer := link, client := c.client.(sendSeq := c.client.sendSeq + 1));
  }

  method ServerAnswers(c: Conn, channel: ServerChannel) returns (c': Conn)
    requires Enabled(c, ServerResponds) && channel.State() == c.server
    modifies channel
    ensures c' == DoRespond(c) && channel.State() == c'.server
  {
    var link := channel.SendStatus(c.toClient, Response(c.serverPhase.id, c.serverPhase.opcode));
    c' := c.(toClient := link, serverSent := c.serverSent + 1, server := c.server.(sendSeq := c.server.sendSeq + 1),
             serverPhase := AwaitRequest);
  }

  method ClientReadsAnswer(c: Conn, channel: ClientChannel) returns (c': Conn)
    requires Enabled(c, ClientReadsResponse) && channel.State() == c.client
    modifies channel
    ensures c' == DoReadResponse(c) && channel.State() == c'.client
    ensures c'.clientPhase.Ready? <==>
            c.toClient[0] == Frame(c.client.recvKey, c.client.recvSeq, Response(c.clientPhase.id, c.clientPhase.opcode))
  {
    var ok, body, link := channel.RecvSecure(c.toClient);
    if !ok {
      return c.(clientPhase := ClientFault);
    }
    c' := c.(toClient := link, client := c.client.(recvSeq := c.client.recvSeq + 1),
             clientPhase := if body == Response(c.clientPhase.id, c.clientPhase.opcode) then Ready else ClientFault);
  }

  // ---------- What every connection keeps ----------

  /** The number that the server expects next: before its counters are set, 0 and then 1. */
  function ServerExpects(c: Conn): nat {
    match c.serverPhase
    case AwaitSignature => 0
    case Deciding => 1
    case _ => c.server.recvSeq
  }

  /** The frames of a link carry the key and the numbers that their receiver expects, without a gap. */
  predicate Numbered(link: Link, key: Key, expected: nat, sent: nat) {
    && expected + |link| == sent
    && forall i :: 0 <= i < |link| ==> link[i].key == key && link[i].seqNo == expected + i
  }

  /** Each receiver's counter plus the frames in flight is the sender's counter. */
  predicate Lockstep(c: Conn) {
    && !c.clientPhase.ClientFault? && !c.serverPhase.ServerFault?
    && (!c.serverPhase.NoPeer? ==> Numbered(c.toServer, c.server.recvKey, ServerExpects(c), c.client.sendSeq))
    && (!c.clientPhase.Disconnected? ==> Numbered(c.toClient, c.client.recvKey, c.client.recvSeq, c.serverSent))
  }

  predicate KeysAgree(c: Conn, k: nat) {
    && c.client.sendKey == c.server.recvKey == Key(k, true)
    && c.client.recvKey == c.server.sendKey == Key(k, false)
  }

  /** The server's counter is the number of its frames as soon as it is set. */
  predicate Counted(c: Conn) {
    match c.serverPhase
    case NoPeer => true
    case AwaitSignature => c.serverSent == 0
    case Deciding => c.serverSent == 0
    case _ => c.server.sendSeq == c.serverSent
  }

  predicate IsRequest(f: Frame, p: ClientPhase) { p.AwaitResponse? ==> f.body == Request(p.id, p.opcode) }

  /** What is on its way to a server that still reads; a closed client may have left an unread request. */
  predicate Upward(c: Conn) {
    match c.serverPhase
    case NoPeer => true
    case AwaitSignature =>
      |c.toServer| == 1 && c.toServer[0].body.Signature? && (c.clientPhase.AwaitAccept? || c.clientPhase.Disconnected?)
    case Deciding => c.toServer == [] && (c.clientPhase.AwaitAccept? || c.clientPhase.Disconnected?)
    case AwaitAck =>
      && (c.clientPhase.AwaitAccept? ==> c.toServer == [] && c.client.sendSeq == 1 && c.server.recvSeq == 1)
      && (c.clientPhase.Disconnected? && c.toServer == [] ==> c.server.recvSeq == 1)
      && (c.clientPhase.Ready? ==> |c.toServer| == 1)
      && (c.clientPhase.AwaitResponse? ==> |c.toServer| == 2)
      && |c.toServer| <= 2 && (|c.toServer| >= 1 ==> c.toServer[0].body.Ack?)
      && (|c.toServer| == 2 ==> c.toServer[1].body.Request? && IsRequest(c.toServer[1], c.clientPhase))
    case AwaitRequest =>
      && !c.clientPhase.AwaitAccept? && (c.clientPhase.Ready? ==> c.toServer == [])
      && |c.toServer| <= 1 && (|c.toServer| == 1 ==> c.toServer[0].body.Request? && IsRequest(c.toServer[0], c.clientPhase))
    case Handling(id, opcode) =>
      && c.toServer == [] && (c.clientPhase.Disconnected? || c.clientPhase == AwaitResponse(id, opcode))
    case ServerFault => false
  }

  /** What is on its way to a client that still reads; a closed server may have left an unread frame. */
  predicate Downward(c: Conn) {
    match c.clientPhase
    case Disconnected => true
    case AwaitAccept =>
      && (c.serverPhase.AwaitSignature? || c.serverPhase.Deciding? ==> c.toClient == [])
      && (c.serverPhase.AwaitAck? ==> |c.toClient| == 1 && c.toClient[0].body.Accept?)
      && |c.toClient| <= 1 && (|c.toClient| == 1 ==> c.toClient[0].body.Accept? || c.toClient[0].body.RateLimited?)
      && c.client.sendSeq == 1 && c.client.recvSeq == 0
    case Ready => c.toClient == [] && c.client.recvSeq >= 1
    case AwaitResponse(id, opcode) =>
      && |c.toClient| <= 1 && (|c.toClient| == 1 ==> c.toClient[0].body == Response(id, opcode))
      && (!c.serverPhase.NoPeer? ==> Outstanding(c) == 1)
    case ClientFault => false
  }

  /** The request that a client waits for: on its way, in the server's hands, or answered. */
  function Outstanding(c: Conn): nat {
    (if c.serverPhase.Handling? then 1 else 0) + |c.toClient| +
    (if c.toServer != [] && c.toServer[|c.toServer| - 1].body.Request? then 1 else 0)
  }

  predicate ConnInv(c: Conn, k: nat) {
    Lockstep(c) && KeysAgree(c, k) && Counted(c) && Upward(c) && Downward(c)
  }

  lemma OpenedInv(k: nat)
    ensures ConnInv(Opened(k), k) && Opened(k).client.sendSeq == 1 && Opened(k).serverSent == 0
    ensures |Opened(k).toServer| == 1 && Label(Opened(k).toServer[0]) == {(Key(k, true), 0)}
  {
  }

  /** The frames that one move encrypts. */
  function NewFrames(c: Conn, d: Conn): set<(Key, nat)> {
    (if |d.toServer| > |c.toServer| then Label(d.toServer[|d.toServer| - 1]) else {}) +
    (if |d.toClient| > |c.toClient| then Label(d.toClient[|d.toClient| - 1]) else {})
  }

  function Label(f: Frame): set<(Key, nat)> { {(f.key, f.seqNo)} }

  /** The number of a new frame was not reached before the move and is passed by it. */
  predicate Fresh(c: Conn, d: Conn, k: nat) {
    && c.client.sendSeq <= d.client.sendSeq && c.serverSent <= d.serverSent
    && forall p :: p in NewFrames(c, d) ==>
         p.0.connection == k &&
         if p.0.toServer then c.client.sendSeq <= p.1 < d.client.sendSeq else c.serverSent <= p.1 < d.serverSent
  }

  lemma ReadSignatureKeeps(c: Conn, k: nat)
    requires ConnInv(c, k) && Enabled(c, ServerReadsSignature)
    ensures ConnInv(DoReadSignature(c), k) && Fresh(c, DoReadSignature(c), k)
  {
  }

  lemma DecisionKeeps(c: Conn, k: nat)
    requires ConnInv(c, k) && c.serverPhase.Deciding?
    ensures ConnInv(DoAccept(c), k) && ConnInv(DoReject(c), k) && Fresh(c, DoAccept(c), k) && Fresh(c, DoReject(c), k)
  {
  }

  lemma ReadVerdictKeeps(c: Conn, k: nat)
    requires ConnInv(c, k) && Enabled(c, ClientReadsVerdict)
    ensures ConnInv(DoReadVerdict(c), k) && Fresh(c, DoReadVerdict(c), k)
  {
  }

  lemma ServerReadKeeps(c: Conn, k: nat)
    requires ConnInv(c, k) && (Enabled(c, ServerReadsAck) || Enabled(c, ServerReadsRequest))
    ensures ConnInv(DoServerReads(c), k) && Fresh(c, DoServerReads(c), k)
  {
  }

  lemma RequestKeeps(c: Conn, k: nat, id: nat, opcode: nat)
    requires ConnInv(c, k) && Enabled(c, ClientRequests(id, opcode))
    ensures ConnInv(DoRequest(c, id, opcode), k) && Fresh(c, DoRequest(c, id, opcode), k)
  {
  }

  lemma RespondKeeps(c: Conn, k: nat)
    requires ConnInv(c, k) && Enabled(c, ServerResponds)
    ensures ConnInv(DoRespond(c), k) && Fresh(c, DoRespond(c), k)
  {
  }

  lemma ReadResponseKeeps(c: Conn, k: nat)
    requires ConnInv(c, k) && Enabled(c, ClientReadsResponse)
    ensures ConnInv(DoReadResponse(c), k) && Fresh(c, DoReadResponse(c), k)
  {
  }

  lemma CloseKeeps(c: Conn, k: nat)
    requires ConnInv(c, k)
    ensures ConnInv(c.(clientPhase := Disconnected), k) && Fresh(c, c.(clientPhase := Disconnected), k)
    ensures ConnInv(c.(serverPhase := NoPeer), k) && Fresh(c, c.(serverPhase := NoPeer), k)
  {
  }

  /** Every move of either end, at any moment, keeps the connection in step. */
  lemma MoveKeeps(c: Conn, k: nat, a: Action)
    requires ConnInv(c, k) && Enabled(c, a)
    ensures ConnInv(Move(c, a), k) && Fresh(c, Move(c, a), k)
  {
    hide ConnInv, Fresh, DoReadSignature, DoAccept, DoReject, DoReadVerdict, DoServerReads, DoRequest, DoRespond, DoReadResponse;
    match a
    case ServerReadsSignature => ReadSignatureKeeps(c, k);
    case ServerAccepts => DecisionKeeps(c, k);
    case ServerRejects => DecisionKeeps(c, k);
    case ClientReadsVerdict => ReadVerdictKeeps(c, k);
    case ServerReadsAck => ServerReadKeeps(c, k);
    case ClientRequests(id, opcode) => RequestKeeps(c, k, id, opcode);
    case ServerReadsRequest => ServerReadKeeps(c, k);
    case ServerResponds => RespondKeeps(c, k);
    case ClientReadsResponse => ReadResponseKeeps(c, k);
    case ClientCloses => CloseKeeps(c, k);
    case ServerCloses => CloseKeeps(c, k);
  }

  // ---------- All connections of one client ----------

  /** The connections in the order of their opening. `used` collects the key and number of every frame ever encrypted. */
  datatype System = System(conns: seq<Conn>, used: set<(Key, nat)>, reused: bool)

  /** The client opens a connection, or one of the two ends of connection `k` acts. */
  datatype Step = Connect | Act(k: nat, action: Action)

  function Start(): System { System([], {}, false) }

  /** A client has one socket: it opens a new one only when the last one is closed, whatever the server still does on it. */
  predicate CanDo(s: System, step: Step) {
    match step
    case Connect => s.conns == [] || s.conns[|s.conns| - 1].clientPhase.Disconnected?
    case Act(k, action) => k < |s.conns| && Enabled(s.conns[k], action)
  }

  function Do(s: System, step: Step): System
    requires CanDo(s, step)
  {
    match step
    case Connect =>
      var c := Opened(|s.conns|);
      Record(s.(conns := s.conns + [c]), Label(c.toServer[0]))
    case Act(k, action) =>
      var d := Move(s.conns[k], action);
      Record(s.(conns := s.conns[k := d]), NewFrames(s.conns[k], d))
  }

  function Record(s: System, frames: set<(Key, nat)>): System {
    s.(used := s.used + frames, reused := s.reused || s.used * frames != {})
  }

  /** Where the steps `run` lead from the start, if each of them is possible in its turn. */
  function After(run: seq<Step>): Option<System> {
    if run == [] then Some(Start())
    else
      match After(run[..|run| - 1])
      case None => None
      case Some(t) => if CanDo(t, run[|run| - 1]) then Some(Do(t, run[|run| - 1])) else None
  }

  /** Every pair used so far belongs to a connection, and its number is below that sender's counter. */
  predicate UsedBelow(s: System) {
    forall p :: p in s.used ==>
      && p.0.connection < |s.conns|
      && var c := s.conns[p.0.connection]; p.1 < if p.0.toServer then c.client.sendSeq else c.serverSent
  }

  predicate Inv(s: System) {
    (forall k :: 0 <= k < |s.conns| ==> ConnInv(s.conns[k], k)) && UsedBelow(s) && !s.reused
  }

  /** Every step keeps the invariant, on old connections that the server still serves as well as on the current one. */
  lemma StepKeeps(s: System, step: Step)
    requires Inv(s) && CanDo(s, step)
    ensures Inv(Do(s, step))
  {
    hide ConnInv, Move, Opened, Enabled;
    match step {
      case Connect =>
        OpenedInv(|s.conns|);
      case Act(k, action) =>
        MoveKeeps(s.conns[k], k, action);
        ActKeeps(s, k, Move(s.conns[k], action));
    }
  }

  lemma ActKeeps(s: System, k: nat, d: Conn)
    requires Inv(s) && k < |s.conns| && ConnInv(d, k) && Fresh(s.conns[k], d, k)
    ensures Inv(Record(s.(conns := s.conns[k := d]), NewFrames(s.conns[k], d)))
  {
    hide ConnInv, NewFrames;
  }

  lemma {:induction false} RunKeeps(run: seq<Step>)
    requires After(run).Some?
    ensures Inv(After(run).value)
  {
    hide Inv, Do, CanDo;
    if run == [] {
      NothingUsed();
    } else {
      RunKeeps(run[..|run| - 1]);
      StepKeeps(After(run[..|run| - 1]).value, run[|run| - 1]);
    }
  }

  lemma NothingUsed()
    ensures Inv(Start())
  {
  }

  /**
   In every run the two ends of every connection stay in step: neither ever
   refuses a frame of the other, although either may close at any moment and
   the client may reconnect while the server still serves an old connection.
   */
  lemma AlwaysInLockstep(run: seq<Step>)
    requires After(run).Some?
    ensures forall k :: 0 <= k < |After(run).value.conns| ==> Lockstep(After(run).value.conns[k])
  {
    hide After, Lockstep;
    RunKeeps(run);
  }

  /** In no run are two frames encrypted under one key with one number. */
  lemma NumberNeverReused(run: seq<Step>)
    requires After(run).Some?
    ensures !After(run).value.reused
  {
    hide After;
    RunKeeps(run);
  }

  /**
   A response on its way to a client that waits answers its request; while the
   server still serves the connection, the request is under way exactly once.
   */
  lemma ResponsesMatch(run: seq<Step>, k: nat)
    requires After(run).Some? && k < |After(run).value.conns| && After(run).value.conns[k].clientPhase.AwaitResponse?
    ensures var c := After(run).value.conns[k];
            && (c.toClient != [] ==> c.toClient == [Frame(c.client.recvKey, c.client.recvSeq,
                                                          Response(c.clientPhase.id, c.clientPhase.opcode))])
            && (!c.serverPhase.NoPeer? ==> Outstanding(c) == 1)
  {
    hide After;
    RunKeeps(run);
  }
}
