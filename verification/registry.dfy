/** `Server`: the fixed table of slots 1..MaxPlayers, the handler table, the
    accept and datagram callbacks, and the parts of `Client` that reach the
    whole table (its receive callback, `Disconnect`, `SendIntoGame`) together
    with the deferred actions the main thread runs against it. */
module Registry {
  import opened Wire
  import opened Packets
  import opened MainThread
  import opened Framing
  import opened Sessions
  import opened Outbound
  import opened Inbound

  /** The handlers of `Server.PacketHandlers`. */
  datatype Handler = WelcomeReceived | PlayerMovement | PlayerShoot

  /** The handler table, keyed by client packet id. */
  const Handlers: map<int32, Handler> :=
    map[WelcomeReceivedId := WelcomeReceived, PlayerMovementId := PlayerMovement, PlayerShootId := PlayerShoot]

  /** `Player.maxHealth`, 100f, as the four bytes `Write(float)` sends. */
  const MaxHealth: Word := [0x00, 0x00, 0xC8, 0x42]

  function Clients(clients: map<int, Client>): set<Client>
  {
    set i | i in clients :: clients[i]
  }

  /** The slots' accumulation buffers that exist. */
  function Buffers(clients: map<int, Client>): set<Packet>
    reads Tcps(clients)
  {
    set i | i in clients && clients[i].tcp.received != null :: clients[i].tcp.received
  }

  /** The table holds exactly the slots 1..max. */
  ghost predicate Slots(clients: map<int, Client>, max: int)
  {
    forall i :: i in clients <==> 1 <= i <= max
  }

  /** Every slot's client and transports carry the slot's id. These fields
      never change, so neither does this. */
  ghost predicate Ids(clients: map<int, Client>)
  {
    forall i :: i in clients ==> clients[i].id == i && clients[i].tcp.id == i && clients[i].udp.id == i
  }

  /** A slot's TCP side has an accumulation buffer exactly while it has a
      socket, and the buffer is between reads. */
  ghost predicate SlotValid(c: Client)
    reads c.tcp, c.tcp.received
  {
    && (c.tcp.socket.Some? <==> c.tcp.received != null)
    && (c.tcp.received != null ==> Accumulating(c.tcp.received.State()))
  }

  /** No two slots share an accumulation buffer. */
  ghost predicate DistinctBuffers(clients: map<int, Client>)
    reads Tcps(clients)
  {
    forall i, j :: i in clients && j in clients && i != j && clients[i].tcp.received != null ==>
      clients[i].tcp.received != clients[j].tcp.received
  }

  /** No two slots hold the same connection: each accept yields a new one. */
  ghost predicate DistinctSockets(clients: map<int, Client>)
    reads Tcps(clients)
  {
    forall i, j :: i in clients && j in clients && i != j && clients[i].tcp.socket.Some? ==>
      clients[i].tcp.socket != clients[j].tcp.socket
  }

  // ---------------------------------------------------------------------------
  // Accepting a connection

  /** The lowest slot of `from..max` with no socket, if there is one. */
  function FreeFrom(sockets: map<int, Option<Connection>>, from: int, max: int): Option<int>
    decreases max - from
  {
    if from > max then None
    else if from in sockets && sockets[from].None? then Some(from)
    else FreeFrom(sockets, from + 1, max)
  }

  /** `FreeFrom` finds a free slot when there is one, and the lowest. */
  lemma {:induction false} FreeFromLowest(sockets: map<int, Option<Connection>>, from: int, max: int)
    ensures var r := FreeFrom(sockets, from, max);
      && (r.Some? ==> from <= r.value <= max && r.value in sockets && sockets[r.value].None?)
      && (r.Some? ==> forall j :: from <= j < r.value && j in sockets ==> sockets[j].Some?)
      && (r.None? ==> forall j :: from <= j <= max && j in sockets ==> sockets[j].Some?)
    decreases max - from
  {
    if from <= max && !(from in sockets && sockets[from].None?) {
      FreeFromLowest(sockets, from + 1, max);
    }
  }

  // ---------------------------------------------------------------------------
  // Datagram routing

  /** What `UDPReceiveCallback` does with a datagram. */
  datatype Route =
    /** Fewer than 4 bytes: ignored. */
    | TooShort
    /** Claims slot 0: ignored. */
    | NoSlot
    /** Claims a slot outside the table: the lookup throws and is caught. */
    | UnknownSlot(id: int32)
    /** First datagram for the slot: its sender becomes the slot's endpoint. */
    | Bound(slot: int32)
    /** From the slot's endpoint: the rest is read as one packet body. */
    | Delivered(slot: int32, body: Result<seq<byte>>)
    /** From another endpoint: dropped. */
    | Dropped(slot: int32)

  /** The route of a datagram `data` from `from`, given every slot's endpoint.
      The slot's TCP side is never consulted. */
  function RouteOf(endpoints: map<int, Option<Endpoint>>, from: Endpoint, data: seq<byte>): Route
  {
    if |data| < 4 then TooShort else
    var id := DecodeInt(data[..4]);
    if id == 0 then NoSlot
    else if id as int !in endpoints then UnknownSlot(id)
    else if endpoints[id].None? then Bound(id)
    else if endpoints[id] == Some(from) then Delivered(id, DatagramBodyAt(View(data, data, 4)).result)
    else Dropped(id)
  }

  /** The sender's slot id at the head of a datagram of at least four bytes. */
  method ReadSlotId(packet: Packet, ghost data: seq<byte>) returns (id: int32)
    requires |data| >= 4 && packet.State() == View(data, data, 0)
    modifies packet`readPos
    ensures id == DecodeInt(data[..4]) && packet.State() == View(data, data, 4)
  {
    IntEncodingOnto(data[..4]);
    assert data[0..4] == data[..4];
    IntAtEncoding(data, 0, DecodeInt(data[..4]));
    var r := packet.ReadInt();
    id := r.value;
  }

  /** The endpoint that binds a slot keeps it: a later datagram for the slot
      from anyone else is dropped, while the binder's own are delivered. */
  lemma FirstBindWins(endpoints: map<int, Option<Endpoint>>, first: Endpoint, data: seq<byte>,
                      from: Endpoint, later: seq<byte>)
    requires RouteOf(endpoints, first, data).Bound?
    requires |later| >= 4 && later[..4] == data[..4]
    ensures var slot := RouteOf(endpoints, first, data).slot;
      var bound := endpoints[slot := Some(first)];
      && (from != first ==> RouteOf(bound, from, later) == Dropped(slot))
      && (from == first ==> RouteOf(bound, from, later).Delivered?)
  {
  }

  /** Only a datagram from the slot's own endpoint is ever delivered, and it is
      delivered to the slot it names. */
  lemma DeliveredOnlyFromEndpoint(endpoints: map<int, Option<Endpoint>>, from: Endpoint, data: seq<byte>)
    requires RouteOf(endpoints, from, data).Delivered?
    ensures var slot := RouteOf(endpoints, from, data).slot;
      slot as int in endpoints && endpoints[slot] == Some(from) && |data| >= 4 && slot == DecodeInt(data[..4])
  {
  }

  // ---------------------------------------------------------------------------
  // Entering the game

  /** The slots 1..upTo that have a player, in ascending order. */
  function Seated(players: map<int, PlayerView>, upTo: int): seq<int>
    decreases upTo
  {
    if upTo < 1 then [] else Seated(players, upTo - 1) + (if upTo in players then [upTo] else [])
  }

  lemma {:induction false} SeatedExactly(players: map<int, PlayerView>, upTo: int, x: int)
    ensures x in Seated(players, upTo) <==> 1 <= x <= upTo && x in players
    decreases upTo
  {
    if upTo >= 1 {
      SeatedExactly(players, upTo - 1, x);
    }
  }

  /** The first loop of `SendIntoGame`: the SpawnPlayer of every player in
      slots 1..upTo other than `slot`'s own, each to `slot`. */
  function ExistingSpawns(sockets: map<int, Option<Connection>>, players: map<int, PlayerView>, slot: int, upTo: int): seq<Send>
    decreases upTo
  {
    if upTo < 1 then [] else
    ExistingSpawns(sockets, players, slot, upTo - 1)
    + (if upTo in players && upTo != slot then StreamTo(sockets, slot, Frame(SpawnPlayerBody(players[upTo]))) else [])
  }

  /** Everything `SendIntoGame` sends once `slot`'s player is `player`. */
  function IntoGameSends(sockets: map<int, Option<Connection>>, players: map<int, PlayerView>, slot: int, max: int): seq<Send>
    requires slot in players
  {
    ExistingSpawns(sockets, players, slot, max)
      + StreamSends(sockets, Seated(players, max), Frame(SpawnPlayerBody(players[slot])))
  }

  /** The new client learns of every other seated player: a SpawnPlayer of
      each reaches it, and nothing else of the first loop does. */
  lemma {:induction false} ExistingSpawnsReach(sockets: map<int, Option<Connection>>, players: map<int, PlayerView>,
                                              slot: int, upTo: int, s: Send)
    requires slot in sockets && sockets[slot].Some?
    ensures s in ExistingSpawns(sockets, players, slot, upTo) <==>
      exists j :: 1 <= j <= upTo && j in players && j != slot
        && s == Stream(sockets[slot].value, Frame(SpawnPlayerBody(players[j])))
    decreases upTo
  {
    if upTo >= 1 {
      ExistingSpawnsReach(sockets, players, slot, upTo - 1, s);
    }
  }

  /** Every connected seated slot, the new player's own included, receives
      the new player's SpawnPlayer. */
  lemma NewSpawnReaches(sockets: map<int, Option<Connection>>, players: map<int, PlayerView>, slot: int, max: int, j: int)
    requires slot in players && 1 <= j <= max && j in players && j in sockets && sockets[j].Some?
    ensures Stream(sockets[j].value, Frame(SpawnPlayerBody(players[slot]))) in IntoGameSends(sockets, players, slot, max)
  {
    var to := Seated(players, max);
    SeatedExactly(players, max, j);
    var k :| 0 <= k < |to| && to[k] == j;
    StreamSendsReach(sockets, to, Frame(SpawnPlayerBody(players[slot])), Stream(sockets[j].value, Frame(SpawnPlayerBody(players[slot]))));
  }

  // ---------------------------------------------------------------------------
  // Leaving

  /** A TCP fan-out reaches no connection that no slot holds. */
  lemma UnboundNotReached(sockets: map<int, Option<Connection>>, to: seq<int>, bytes: seq<byte>, c: Connection)
    requires forall i :: i in sockets ==> sockets[i] != Some(c)
    ensures forall s :: s in StreamSends(sockets, to, bytes) ==> s.Stream? && s.connection != c
  {
    forall s | s in StreamSends(sockets, to, bytes) ensures s.Stream? && s.connection != c {
      StreamSendsReach(sockets, to, bytes, s);
    }
  }

  /** A TCP broadcast to every slot 1..max reaches every connected one of them. */
  lemma BroadcastReachesConnected(sockets: map<int, Option<Connection>>, max: int, bytes: seq<byte>, j: int)
    requires 1 <= j <= max && j in sockets && sockets[j].Some?
    ensures Stream(sockets[j].value, bytes) in StreamSends(sockets, Recipients(max, None), bytes)
  {
    var to := Recipients(max, None);
    RecipientsExactly(max, None, j);
    var k :| 0 <= k < |to| && to[k] == j;
    StreamSendsReach(sockets, to, bytes, Stream(sockets[j].value, bytes));
  }

  // ---------------------------------------------------------------------------
  // Running a dispatched packet

  /** A handler's decoded arguments. */
  datatype Call =
    | Welcomed(claimed: int32, username: Name)
    | Moved(inputs: seq<bool>, rotation: Quaternion)
    | Shot(direction: Vector3)

  /** Why a dispatched packet never reaches its handler's effect. */
  datatype Fault = ReadFault(failure: Failure) | UnknownPacket(id: int32)

  datatype Decoded = Decoded(call: Call) | Undecodable(fault: Fault)

  /** The dispatch closure: the packet id, the handler it selects, and that
      handler's reads. */
  function Decode(body: seq<byte>): Decoded
  {
    var id := IntAt(View(body, body, 0), true);
    if id.result.Err? then Undecodable(ReadFault(ReadFailed(id.result.error)))
    else if id.result.value !in Handlers then Undecodable(UnknownPacket(id.result.value))
    else match Handlers[id.result.value]
      case WelcomeReceived =>
        var p := WelcomeReceivedAt(id.after);
        if p.result.Threw? then Undecodable(ReadFault(p.result.failure))
        else Decoded(Welcomed(p.result.value.0, p.result.value.1))
      case PlayerMovement =>
        var p := PlayerMovementAt(id.after);
        if p.result.Threw? then Undecodable(ReadFault(p.result.failure))
        else Decoded(Moved(p.result.value.0, p.result.value.1))
      case PlayerShoot =>
        var p := PlayerShootAt(id.after);
        if p.result.Threw? then Undecodable(ReadFault(p.result.failure))
        else Decoded(Shot(p.result.value))
  }

  /** The reads the dispatch closure makes on a fresh packet over `body`:
      the packet id, then the reads of the handler that id selects. */
  method ReadCall(body: seq<byte>, handlers: map<int32, Handler>) returns (decoded: Decoded)
    requires handlers == Handlers
    ensures decoded == Decode(body)
  {
    var packet := new Packet.FromBytes(body);
    var packetId := packet.ReadInt();
    if packetId.Err? {
      return Undecodable(ReadFault(ReadFailed(packetId.error)));
    }
    if packetId.value !in handlers {
      return Undecodable(UnknownPacket(packetId.value));
    }
    match handlers[packetId.value]
    case WelcomeReceived =>
      var r := ReadWelcomeReceived(packet);
      decoded := if r.Threw? then Undecodable(ReadFault(r.failure)) else Decoded(Welcomed(r.value.0, r.value.1));
    case PlayerMovement =>
      var r := ReadPlayerMovement(packet);
      decoded := if r.Threw? then Undecodable(ReadFault(r.failure)) else Decoded(Moved(r.value.0, r.value.1));
    case PlayerShoot =>
      var r := ReadPlayerShoot(packet);
      decoded := if r.Threw? then Undecodable(ReadFault(r.failure)) else Decoded(Shot(r.value));
  }

  /** What a client sends after its welcome decodes to the id it claims and
      its name, whatever that id is. */
  lemma DecodeWelcomeReceived(claimed: int32, username: Name, rest: seq<byte>)
    requires IsAscii(username)
    ensures Decode(EncodeInt(WelcomeReceivedId) + EncodeInt(claimed) + EncodeString(username) + rest)
      == Decoded(Welcomed(claimed, username))
  {
    var i := EncodeInt(WelcomeReceivedId);
    var b := i + EncodeInt(claimed) + EncodeString(username) + rest;
    assert b == i + (EncodeInt(claimed) + EncodeString(username) + rest);
    Within(i, EncodeInt(claimed) + EncodeString(username) + rest, 0, 4);
    assert i[0..4] == i;
    IntAtEncoding(b, 0, WelcomeReceivedId);
    WelcomeReceivedRoundTrip(i, claimed, username, rest);
  }

  /** A body with an id outside the table selects no handler. */
  lemma DecodeUnknownPacket(id: int32, rest: seq<byte>)
    requires id !in {WelcomeReceivedId, PlayerMovementId, PlayerShootId}
    ensures Decode(EncodeInt(id) + rest) == Undecodable(UnknownPacket(id))
  {
    var b := EncodeInt(id) + rest;
    assert b[0..4] == EncodeInt(id);
    IntAtEncoding(b, 0, id);
  }

  class Server {
    const maxPlayers: int32
    const clients: map<int, Client>
    const handlers: map<int32, Handler>
    /** The deferred-action queue the callbacks feed. */
    const main: ThreadManager<Deferred>

    /** The server invariant: the queue's, the table's shape, and the TCP
        sides' links between sockets and buffers. */
    ghost predicate Valid()
      reads this, main, Tcps(clients), Buffers(clients)
    {
      main.Valid() && Shape() && Linked()
    }

    /** Slots 1..maxPlayers, each with its own id, and the three handlers.
        Every field involved is constant, so this never changes. */
    ghost predicate Shape()
    {
      handlers == Handlers && Slots(clients, maxPlayers) && Ids(clients)
    }

    /** The TCP sides: a buffer exactly while connected, each between reads,
        and no buffer or socket shared. Only the TCP methods change these. */
    ghost predicate Linked()
      reads Tcps(clients), Buffers(clients)
    {
      && (forall i :: i in clients ==> SlotValid(clients[i]))
      && DistinctBuffers(clients) && DistinctSockets(clients)
    }

    /** Every slot's player, for the slots that have one. */
    function Players(): (m: map<int, PlayerView>)
      reads Clients(clients)
      ensures forall i :: i in m <==> i in clients && clients[i].player.Some?
    {
      map i | i in clients && clients[i].player.Some? :: clients[i].player.value
    }

    /** `Start` up to the listeners, i.e. `InitializeServerData`: a free client
        for every slot 1..maxPlayers, and the three handlers. */
    constructor (maxPlayers: int32)
      ensures Valid() && this.maxPlayers == maxPlayers && fresh(main) && main.pending == []
      ensures forall i :: i in clients <==> 1 <= i <= maxPlayers
      ensures handlers.Keys == {WelcomeReceivedId, PlayerMovementId, PlayerShootId}
      ensures forall i :: i in clients ==>
        clients[i].player.None? && clients[i].tcp.socket.None? && clients[i].udp.endpoint.None?
    {
      var table: map<int, Client> := map[];
      var i := 1;
      while i <= maxPlayers
        invariant 1 <= i <= if maxPlayers < 1 then 1 else maxPlayers + 1
        invariant forall j :: j in table <==> 1 <= j < i
        invariant Ids(table)
        invariant forall j :: j in table ==>
          table[j].player.None? && table[j].tcp.socket.None? && table[j].tcp.received == null && table[j].udp.endpoint.None?
      {
        var c := new Client(i);
        table := table[i := c];
        i := i + 1;
      }
      this.maxPlayers := maxPlayers;
      clients := table;
      handlers := Handlers;
      main := new ThreadManager();
    }

    /** The slot scan of `TcpConnectCallback`: the lowest slot with no socket. */
    method FreeSlot() returns (slot: Option<int>)
      requires Valid()
      ensures slot == FreeFrom(Sockets(clients), 1, maxPlayers)
      ensures slot.Some? ==> slot.value in clients && clients[slot.value].tcp.socket.None?
    {
      ghost var sockets := Sockets(clients);
      FreeFromLowest(sockets, 1, maxPlayers);
      var i := 1;
      while i <= maxPlayers && clients[i].tcp.socket.Some?
        invariant 1 <= i <= if maxPlayers < 1 then 1 else maxPlayers + 1
        invariant FreeFrom(sockets, i, maxPlayers) == FreeFrom(sockets, 1, maxPlayers)
      {
        i := i + 1;
      }
      slot := if i <= maxPlayers then Some(i) else None;
    }

    /** `TCP.Connect` on a free slot: the slot gets the connection and a new,
        empty buffer. */
    method Bind(k: int, connection: Connection)
      requires Valid() && k in clients && clients[k].tcp.socket.None?
      requires forall j :: j in clients ==> clients[j].tcp.socket != Some(connection)
      modifies clients[k].tcp
      ensures Valid()
      ensures clients[k].tcp.socket == Some(connection)
      ensures fresh(clients[k].tcp.received) && clients[k].tcp.received.State() == View([], [], 0)
      ensures forall j :: j in clients && j != k ==> unchanged(clients[j].tcp)
    {
      var tcp := clients[k].tcp;
      forall j | j in clients && j != k ensures clients[j].tcp != tcp {
        assert clients[j].tcp.id == j;
      }
      tcp.Connect(connection);
    }

    /** `TcpConnectCallback`: the new connection takes the lowest slot with no
        socket, which is then welcomed. A full server only logs: no slot
        changes and nothing is sent. */
    method TcpConnectCallback(connection: Connection) returns (slot: Option<int>, sent: seq<Send>)
      requires Valid() && forall j :: j in clients ==> clients[j].tcp.socket != Some(connection)
      modifies Tcps(clients)
      ensures Valid()
      ensures slot == FreeFrom(old(Sockets(clients)), 1, maxPlayers)
      ensures slot.Some? ==> slot.value in clients
      ensures slot.None? ==> sent == []
      ensures slot.Some? ==>
        && clients[slot.value].tcp.socket == Some(connection)
        && fresh(clients[slot.value].tcp.received) && clients[slot.value].tcp.received.State() == View([], [], 0)
        && sent == [Stream(connection, Frame(WelcomeBody(slot.value as int32, WelcomeMessage)))]
      ensures forall j :: j in clients && slot != Some(j) ==> unchanged(clients[j].tcp)
    {
      slot := FreeSlot();
      if slot.None? {
        return None, [];
      }
      var k := slot.value;
      Bind(k, connection);
      sent := Welcome(clients, k as int32, WelcomeMessage);
    }

    /** `ReceiveCallback` for a read of one or more bytes: the slot's buffer and
        the queued dispatches take one step of `Receive`. */
    method HandleChunk(k: int, chunk: seq<byte>)
      requires Valid() && k in clients && clients[k].tcp.socket.Some?
      modifies clients[k].tcp.received, main`pending, main`hasPending
      ensures Valid()
      ensures var step := Receive(old(clients[k].tcp.Accumulated()), chunk);
        clients[k].tcp.Accumulated() == step.0 && main.pending == old(main.pending) + Dispatches(k as int32, step.1)
    {
      clients[k].tcp.ReceiveChunk(chunk, main);
    }

    /** `Client.Disconnect`: queue the player's destruction, close both
        transports, then tell every connected slot. The closed connection
        is told nothing, and every other connected slot is told. */
    method Disconnect(k: int) returns (sent: seq<Send>)
      requires Valid() && k in clients && clients[k].tcp.socket.Some?
      modifies clients[k].tcp, clients[k].udp, main`pending, main`hasPending
      ensures Valid()
      ensures main.pending == old(main.pending) + [DestroyPlayer(k as int32)]
      ensures clients[k].tcp.socket.None? && clients[k].tcp.received == null && clients[k].udp.endpoint.None?
      ensures forall j :: j in clients && j != k ==> unchanged(clients[j].tcp, clients[j].udp)
      ensures sent == StreamSends(Sockets(clients), Recipients(maxPlayers, None), Frame(PlayerDisconnectedBody(k as int32)))
      ensures forall s :: s in sent ==> s.Stream? && s.connection != old(clients[k].tcp.socket.value)
      ensures forall j :: j in clients && clients[j].tcp.socket.Some? ==>
        Stream(clients[j].tcp.socket.value, Frame(PlayerDisconnectedBody(k as int32))) in sent
    {
      main.ExecuteOnMainThread(Some(DestroyPlayer(k as int32)));
      ghost var gone := clients[k].tcp.socket.value;
      Close(k);
      sent := PlayerDisconnected(clients, maxPlayers, k as int32);
      ghost var sockets := Sockets(clients);
      UnboundNotReached(sockets, Recipients(maxPlayers, None), Frame(PlayerDisconnectedBody(k as int32)), gone);
      forall j | j in clients && clients[j].tcp.socket.Some?
        ensures Stream(clients[j].tcp.socket.value, Frame(PlayerDisconnectedBody(k as int32))) in sent
      {
        BroadcastReachesConnected(sockets, maxPlayers, Frame(PlayerDisconnectedBody(k as int32)), j);
      }
    }

    /** `TCP.Disconnect` then `UDP.Disconnect` on slot `k`. The connection
        it held is then held by no slot. */
    method Close(k: int)
      requires Valid() && k in clients && clients[k].tcp.socket.Some?
      modifies clients[k].tcp, clients[k].udp
      ensures Valid()
      ensures clients[k].tcp.socket.None? && clients[k].tcp.received == null && clients[k].udp.endpoint.None?
      ensures forall j :: j in clients && j != k ==> unchanged(clients[j].tcp, clients[j].udp)
      ensures forall j :: j in clients ==> clients[j].tcp.socket != old(clients[k].tcp.socket)
    {
      var tcp, udp := clients[k].tcp, clients[k].udp;
      forall j | j in clients && j != k ensures clients[j].tcp != tcp && clients[j].udp != udp {
        assert clients[j].tcp.id == j && clients[j].udp.id == j;
      }
      tcp.Disconnect();
      udp.Disconnect();
    }

    /** `ReceiveCallback`: a read of zero bytes disconnects the slot and stops
        reading; any other read is handled and reading goes on. */
    method ReceiveCallback(k: int, chunk: seq<byte>) returns (reading: bool, sent: seq<Send>)
      requires Valid() && k in clients && clients[k].tcp.socket.Some?
      modifies clients[k].tcp, clients[k].udp, clients[k].tcp.received, main`pending, main`hasPending
      ensures Valid()
      ensures reading == (chunk != [])
      ensures chunk != [] ==>
        && sent == [] && clients[k].tcp.socket == old(clients[k].tcp.socket)
        && var step := Receive(old(clients[k].tcp.Accumulated()), chunk);
        clients[k].tcp.Accumulated() == step.0 && main.pending == old(main.pending) + Dispatches(k as int32, step.1)
      ensures chunk == [] ==>
        && main.pending == old(main.pending) + [DestroyPlayer(k as int32)]
        && clients[k].tcp.socket.None? && clients[k].udp.endpoint.None?
        && sent == StreamSends(Sockets(clients), Recipients(maxPlayers, None), Frame(PlayerDisconnectedBody(k as int32)))
    {
      if chunk == [] {
        sent := Disconnect(k);
        return false, sent;
      }
      HandleChunk(k, chunk);
      return true, [];
    }

    /** `UDPReceiveCallback`: route the datagram by the slot id in its first four
        bytes. Only a first datagram binds an endpoint, and only a delivered
        one with a readable body queues a dispatch. */
    method UdpReceiveCallback(from: Endpoint, data: seq<byte>) returns (route: Route)
      requires main.Valid() && Shape()
      modifies Udps(clients), main`pending, main`hasPending
      ensures route == RouteOf(old(Endpoints(clients)), from, data)
      ensures route.Bound? ==> clients[route.slot as int].udp.endpoint == Some(from)
      ensures forall j :: j in clients && !(route.Bound? && route.slot as int == j) ==> unchanged(clients[j].udp)
      ensures route.Delivered? && route.body.Ok? ==>
        main.pending == old(main.pending) + [Dispatch(route.slot, route.body.value)]
      ensures !(route.Delivered? && route.body.Ok?) ==> main.pending == old(main.pending)
      ensures main.Valid()
    {
      if |data| < 4 {
        return TooShort;
      }
      var packet := new Packet.FromBytes(data);
      var id := ReadSlotId(packet, data);
      if id == 0 {
        return NoSlot;
      }
      if id as int !in clients {
        return UnknownSlot(id);
      }
      var udp := clients[id as int].udp;
      forall j | j in clients && j != id as int ensures clients[j].udp != udp {
        assert clients[j].udp.id == j;
      }
      if udp.endpoint.None? {
        udp.Connect(from);
        return Bound(id);
      }
      if udp.endpoint == Some(from) {
        var body := udp.HandleData(packet, main);
        return Delivered(id, body);
      }
      return Dropped(id);
    }

    /** `SendIntoGame`: the slot's player is created with the name, full
        health and the spawn pose; the new client is told of every other
        player, then every seated slot, this one included, is told of the
        new player. */
    method SendIntoGame(k: int, username: Name, position: Vector3, rotation: Quaternion) returns (sent: seq<Send>)
      requires Shape() && k in clients
      modifies clients[k]
      ensures clients[k].player == Some(PlayerView(k as int32, username, position, rotation, MaxHealth))
      ensures forall j :: j in clients && j != k ==> clients[j].player == old(clients[j].player)
      ensures sent == IntoGameSends(Sockets(clients), Players(), k, maxPlayers)
    {
      var client := clients[k];
      forall j | j in clients && j != k ensures clients[j] != client {
        assert clients[j].id == j;
      }
      client.player := Some(PlayerView(k as int32, username, position, rotation, MaxHealth));
      ghost var sockets, players := Sockets(clients), Players();
      var existing := SpawnExisting(k, sockets, players);
      assert players[k] == client.player.value;
      var announced := SpawnNew(client.player.value, sockets, players);
      sent := existing + announced;
    }

    /** The first loop of `SendIntoGame`: every other seated player, to slot `k`. */
    method SpawnExisting(k: int, ghost sockets: map<int, Option<Connection>>, ghost players: map<int, PlayerView>)
      returns (sent: seq<Send>)
      requires Shape() && k in clients && sockets == Sockets(clients) && players == Players()
      ensures sent == ExistingSpawns(sockets, players, k, maxPlayers)
      ensures Sockets(clients) == sockets && Players() == players
    {
      sent := [];
      var i := 1;
      while i <= maxPlayers
        invariant 1 <= i <= if maxPlayers < 1 then 1 else maxPlayers + 1
        invariant sent == ExistingSpawns(sockets, players, k, i - 1)
      {
        var other := clients[i].player;
        assert other.Some? <==> i in players;
        if other.Some? && i != k {
          assert other.value == players[i];
          var s := SpawnPlayer(clients, k, other.value);
          sent := sent + s;
        }
        i := i + 1;
      }
    }

    /** The second loop of `SendIntoGame`: the new player, to every seated slot. */
    method SpawnNew(player: PlayerView, ghost sockets: map<int, Option<Connection>>, ghost players: map<int, PlayerView>)
      returns (sent: seq<Send>)
      requires Shape() && sockets == Sockets(clients) && players == Players()
      ensures sent == StreamSends(sockets, Seated(players, maxPlayers), Frame(SpawnPlayerBody(player)))
      ensures Sockets(clients) == sockets && Players() == players
    {
      sent := [];
      var i := 1;
      while i <= maxPlayers
        invariant 1 <= i <= if maxPlayers < 1 then 1 else maxPlayers + 1
        invariant sent == StreamSends(sockets, Seated(players, i - 1), Frame(SpawnPlayerBody(player)))
      {
        assert clients[i].player.Some? <==> i in players;
        if clients[i].player.Some? {
          var s := SpawnPlayer(clients, i, player);
          assert s == StreamTo(sockets, i, Frame(SpawnPlayerBody(player)));
          StreamSendsSnoc(sockets, Seated(players, i - 1), i, Frame(SpawnPlayerBody(player)));
          sent := sent + s;
          assert Seated(players, i) == Seated(players, i - 1) + [i];
        } else {
          assert Seated(players, i) == Seated(players, i - 1);
        }
        i := i + 1;
      }
    }

    /** The closure `Client.Disconnect` queues: it throws on a slot with no
        player, and otherwise forgets the player. */
    method RunDestroyPlayer(k: int) returns (threw: bool)
      requires k in clients
      modifies clients[k]
      ensures threw == old(clients[k].player).None?
      ensures clients[k].player.None?
    {
      if clients[k].player.None? {
        return true;
      }
      clients[k].player := None;
      return false;
    }

    /** The closure a received packet queues: read the packet id, select its
        handler and run it for slot `k`. An unknown id or a read that throws
        stops it; so does a welcome on a slot with no socket (its log line
        dereferences the socket) and a movement or shot for a slot with no
        player. A welcome with the wrong id is only logged. `position` and
        `rotation` are where the scene spawns a new player. */
    method RunDispatch(k: int, body: seq<byte>, position: Vector3, rotation: Quaternion) returns (threw: bool, sent: seq<Send>)
      requires Shape() && k in clients
      modifies clients[k]
      ensures Decode(body).Undecodable? ==> threw && sent == [] && unchanged(clients[k])
      ensures Decode(body).Decoded? && Decode(body).call.Welcomed? ==>
        var username := Decode(body).call.username;
        && threw == clients[k].tcp.socket.None?
        && (threw ==> sent == [] && unchanged(clients[k]))
        && (!threw ==> clients[k].player == Some(PlayerView(k as int32, username, position, rotation, MaxHealth))
                       && sent == IntoGameSends(Sockets(clients), Players(), k, maxPlayers))
      ensures Decode(body).Decoded? && !Decode(body).call.Welcomed? ==>
        threw == clients[k].player.None? && sent == [] && unchanged(clients[k])
    {
      var decoded := ReadCall(body, handlers);
      match decoded
      case Undecodable(_) =>
        return true, [];
      case Decoded(call) =>
        if call.Welcomed? {
          if clients[k].tcp.socket.None? {
            return true, [];
          }
          sent := SendIntoGame(k, call.username, position, rotation);
          threw := false;
        } else {
          threw := clients[k].player.None?;
          sent := [];
        }
    }
  }
}
