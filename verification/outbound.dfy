/** `ServerSend`: every message the server originates. A builder writes its
    fields into a fresh packet in a fixed order, the send path prefixes the
    length once, and the bytes go to one slot or to every slot 1..MaxPlayers
    (optionally all but one) over TCP or UDP. Sends are recorded effects. */
module Outbound {
  import opened Wire
  import opened Packets
  import opened Sessions

  /** `Server.Clients` holds a client for every slot 1..max. */
  predicate Table(clients: map<int, Client>, max: int)
  {
    forall i :: 1 <= i <= max ==> i in clients
  }

  /** The slots a broadcast visits: 1..upTo in ascending order, skipping `except`. */
  function Recipients(upTo: int, except: Option<int>): (r: seq<int>)
    decreases upTo
  {
    if upTo < 1 then [] else Recipients(upTo - 1, except) + (if except == Some(upTo) then [] else [upTo])
  }

  lemma {:induction false} RecipientsExactly(upTo: int, except: Option<int>, x: int)
    ensures x in Recipients(upTo, except) <==> 1 <= x <= upTo && except != Some(x)
    decreases upTo
  {
    if upTo >= 1 {
      RecipientsExactly(upTo - 1, except, x);
    }
  }

  /** Broadcasts visit slots in strictly ascending order, so each at most once. */
  lemma {:induction false} RecipientsAscending(upTo: int, except: Option<int>, i: nat, j: nat)
    requires i < j < |Recipients(upTo, except)|
    ensures Recipients(upTo, except)[i] < Recipients(upTo, except)[j]
    decreases upTo
  {
    var r := Recipients(upTo - 1, except);
    var r' := Recipients(upTo, except);
    if except == Some(upTo) {
      assert r' == r;
      RecipientsAscending(upTo - 1, except, i, j);
    } else {
      assert r' == r + [upTo];
      assert r'[i] == r[i];
      if j < |r| {
        assert r'[j] == r[j];
        RecipientsAscending(upTo - 1, except, i, j);
      } else {
        assert r[i] in r;
        RecipientsExactly(upTo - 1, except, r[i]);
      }
    }
  }

  // ---------------------------------------------------------------------------
  // What the slots' transports are bound to, and the sends a fan-out makes

  function Tcps(clients: map<int, Client>): set<Tcp>
  {
    set i | i in clients :: clients[i].tcp
  }

  function Udps(clients: map<int, Client>): set<Udp>
  {
    set i | i in clients :: clients[i].udp
  }

  /** Every slot's TCP socket. */
  function Sockets(clients: map<int, Client>): (m: map<int, Option<Connection>>)
    reads Tcps(clients)
    ensures m.Keys == clients.Keys
  {
    map i | i in clients :: clients[i].tcp.socket
  }

  /** Every slot's bound UDP endpoint. */
  function Endpoints(clients: map<int, Client>): (m: map<int, Option<Endpoint>>)
    reads Udps(clients)
    ensures m.Keys == clients.Keys
  {
    map i | i in clients :: clients[i].udp.endpoint
  }

  /** `TCP.SendData` on one slot: a write when the slot has a socket. */
  function StreamTo(sockets: map<int, Option<Connection>>, slot: int, bytes: seq<byte>): seq<Send>
  {
    if slot in sockets && sockets[slot].Some? then [Stream(sockets[slot].value, bytes)] else []
  }

  /** `TCP.SendData` on each recipient in turn. */
  function StreamSends(sockets: map<int, Option<Connection>>, to: seq<int>, bytes: seq<byte>): seq<Send>
  {
    if to == [] then [] else StreamSends(sockets, to[..|to| - 1], bytes) + StreamTo(sockets, to[|to| - 1], bytes)
  }

  /** `UDP.SendData` on one slot: a datagram when the slot has an endpoint. */
  function DatagramTo(endpoints: map<int, Option<Endpoint>>, slot: int, bytes: seq<byte>): seq<Send>
  {
    if slot in endpoints && endpoints[slot].Some? then [Datagram(endpoints[slot].value, bytes)] else []
  }

  function DatagramSends(endpoints: map<int, Option<Endpoint>>, to: seq<int>, bytes: seq<byte>): seq<Send>
  {
    if to == [] then [] else DatagramSends(endpoints, to[..|to| - 1], bytes) + DatagramTo(endpoints, to[|to| - 1], bytes)
  }

  lemma StreamSendsSnoc(sockets: map<int, Option<Connection>>, to: seq<int>, slot: int, bytes: seq<byte>)
    ensures StreamSends(sockets, to + [slot], bytes) == StreamSends(sockets, to, bytes) + StreamTo(sockets, slot, bytes)
  {
    assert (to + [slot])[..|to|] == to;
  }

  lemma DatagramSendsSnoc(endpoints: map<int, Option<Endpoint>>, to: seq<int>, slot: int, bytes: seq<byte>)
    ensures DatagramSends(endpoints, to + [slot], bytes) == DatagramSends(endpoints, to, bytes) + DatagramTo(endpoints, slot, bytes)
  {
    assert (to + [slot])[..|to|] == to;
  }

  /** A TCP fan-out writes the same bytes to exactly the connected recipients:
      a connection is written to if and only if some recipient is bound to it. */
  lemma {:induction false} StreamSendsReach(sockets: map<int, Option<Connection>>, to: seq<int>, bytes: seq<byte>, s: Send)
    ensures s in StreamSends(sockets, to, bytes) <==>
      s.Stream? && s.bytes == bytes && exists k :: 0 <= k < |to| && to[k] in sockets && sockets[to[k]] == Some(s.connection)
  {
    if to != [] {
      var init := to[..|to| - 1];
      StreamSendsReach(sockets, init, bytes, s);
      if s.Stream? && s.bytes == bytes {
        if k :| 0 <= k < |to| && to[k] in sockets && sockets[to[k]] == Some(s.connection) {
          if k < |to| - 1 {
            assert init[k] == to[k];
          }
        }
        if k :| 0 <= k < |init| && init[k] in sockets && sockets[init[k]] == Some(s.connection) {
          assert to[k] == init[k];
        }
      }
    }
  }

  /** A UDP fan-out sends the same bytes to exactly the bound recipients. */
  lemma {:induction false} DatagramSendsReach(endpoints: map<int, Option<Endpoint>>, to: seq<int>, bytes: seq<byte>, s: Send)
    ensures s in DatagramSends(endpoints, to, bytes) <==>
      s.Datagram? && s.bytes == bytes && exists k :: 0 <= k < |to| && to[k] in endpoints && endpoints[to[k]] == Some(s.to)
  {
    if to != [] {
      var init := to[..|to| - 1];
      DatagramSendsReach(endpoints, init, bytes, s);
      if s.Datagram? && s.bytes == bytes {
        if k :| 0 <= k < |to| && to[k] in endpoints && endpoints[to[k]] == Some(s.to) {
          if k < |to| - 1 {
            assert init[k] == to[k];
          }
        }
        if k :| 0 <= k < |init| && init[k] in endpoints && endpoints[init[k]] == Some(s.to) {
          assert to[k] == init[k];
        }
      }
    }
  }

  // ---------------------------------------------------------------------------
  // Send paths: `WriteLength` once, then one slot or a loop over the slots

  /** `SendTCPData`: frames the packet and writes it to one slot. */
  method SendTcpData(clients: map<int, Client>, toClient: int, packet: Packet) returns (sent: seq<Send>)
    requires toClient in clients && |packet.buffer| < 0x8000_0000
    modifies packet`buffer, packet`readable
    ensures packet.buffer == Frame(old(packet.buffer))
    ensures sent == StreamTo(old(Sockets(clients)), toClient, packet.buffer)
  {
    packet.WriteLength();
    sent := clients[toClient].tcp.SendData(packet);
  }

  /** `SendUDPData`: frames the packet and sends it to one slot's endpoint. */
  method SendUdpDataTo(clients: map<int, Client>, toClient: int, packet: Packet) returns (sent: seq<Send>)
    requires toClient in clients && |packet.buffer| < 0x8000_0000
    modifies packet`buffer, packet`readable
    ensures packet.buffer == Frame(old(packet.buffer))
    ensures sent == DatagramTo(old(Endpoints(clients)), toClient, packet.buffer)
  {
    packet.WriteLength();
    sent := clients[toClient].udp.SendData(packet);
  }

  /** Both `SendTCPDataToAll` overloads: frames the packet, then writes it to
      every slot 1..max in order, skipping `except` when there is one. */
  method SendTcpDataToAll(clients: map<int, Client>, max: int, except: Option<int>, packet: Packet) returns (sent: seq<Send>)
    requires Table(clients, max) && |packet.buffer| < 0x8000_0000
    modifies packet`buffer, packet`readable
    ensures packet.buffer == Frame(old(packet.buffer))
    ensures sent == StreamSends(old(Sockets(clients)), Recipients(max, except), packet.buffer)
  {
    ghost var sockets := Sockets(clients);
    packet.WriteLength();
    sent := StreamToAll(clients, max, except, packet, sockets);
  }

  /** The loop of both `SendTCPDataToAll` overloads, over the framed packet. */
  method StreamToAll(clients: map<int, Client>, max: int, except: Option<int>, packet: Packet, ghost sockets: map<int, Option<Connection>>)
      returns (sent: seq<Send>)
    requires Table(clients, max) && sockets == Sockets(clients)
    modifies packet`readable
    ensures sent == StreamSends(sockets, Recipients(max, except), packet.buffer)
  {
    sent := [];
    var i := 1;
    while i <= max
      invariant 1 <= i <= if max < 1 then 1 else max + 1
      invariant sent == StreamSends(sockets, Recipients(i - 1, except), packet.buffer)
    {
      if except != Some(i) {
        StreamSendsSnoc(sockets, Recipients(i - 1, except), i, packet.buffer);
        var s := clients[i].tcp.SendData(packet);
        assert s == StreamTo(sockets, i, packet.buffer);
        sent := sent + s;
        assert Recipients(i, except) == Recipients(i - 1, except) + [i];
      } else {
        assert Recipients(i, except) == Recipients(i - 1, except);
      }
      i := i + 1;
    }
  }

  /** Both `SendUDPDataToAll` overloads. */
  method SendUdpDataToAll(clients: map<int, Client>, max: int, except: Option<int>, packet: Packet) returns (sent: seq<Send>)
    requires Table(clients, max) && |packet.buffer| < 0x8000_0000
    modifies packet`buffer, packet`readable
    ensures packet.buffer == Frame(old(packet.buffer))
    ensures sent == DatagramSends(old(Endpoints(clients)), Recipients(max, except), packet.buffer)
  {
    ghost var endpoints := Endpoints(clients);
    packet.WriteLength();
    sent := DatagramToAll(clients, max, except, packet, endpoints);
  }

  /** The loop of both `SendUDPDataToAll` overloads, over the framed packet. */
  method DatagramToAll(clients: map<int, Client>, max: int, except: Option<int>, packet: Packet, ghost endpoints: map<int, Option<Endpoint>>)
      returns (sent: seq<Send>)
    requires Table(clients, max) && endpoints == Endpoints(clients)
    modifies packet`readable
    ensures sent == DatagramSends(endpoints, Recipients(max, except), packet.buffer)
  {
    sent := [];
    var i := 1;
    while i <= max
      invariant 1 <= i <= if max < 1 then 1 else max + 1
      invariant sent == DatagramSends(endpoints, Recipients(i - 1, except), packet.buffer)
    {
      if except != Some(i) {
        DatagramSendsSnoc(endpoints, Recipients(i - 1, except), i, packet.buffer);
        var s := clients[i].udp.SendData(packet);
        assert s == DatagramTo(endpoints, i, packet.buffer);
        sent := sent + s;
        assert Recipients(i, except) == Recipients(i - 1, except) + [i];
      } else {
        assert Recipients(i, except) == Recipients(i - 1, except);
      }
      i := i + 1;
    }
  }

  // ---------------------------------------------------------------------------
  // Message layouts (before framing)

  const WelcomeMessage: string := "Welcome to the server!"

  /** `[1][msg][toClient]`: the text comes before the id. */
  function WelcomeBody(toClient: int32, msg: string): (b: seq<byte>)
    requires StringFits(msg)
    ensures |b| == 12 + |msg|
  {
    EncodeInt(WelcomeId) + EncodeString(msg) + EncodeInt(toClient)
  }

  /** `[2][id][username][position][rotation]`. */
  function SpawnPlayerBody(player: PlayerView): (b: seq<byte>)
    ensures |b| == 40 + |player.username|
  {
    EncodeInt(SpawnPlayerId) + EncodeInt(player.id) + EncodeString(player.username)
      + EncodeVector3(player.position) + EncodeQuaternion(player.rotation)
  }

  /** `[3][id][position]`. */
  function PlayerPositionBody(player: PlayerView): (b: seq<byte>)
    ensures |b| == 20
  {
    EncodeInt(PlayerPositionId) + EncodeInt(player.id) + EncodeVector3(player.position)
  }

  /** `[4][id][rotation]`. */
  function PlayerRotationBody(player: PlayerView): (b: seq<byte>)
    ensures |b| == 24
  {
    EncodeInt(PlayerRotationId) + EncodeInt(player.id) + EncodeQuaternion(player.rotation)
  }

  /** `[5][playerId]`. */
  function PlayerDisconnectedBody(playerId: int32): (b: seq<byte>)
    ensures |b| == 8
  {
    EncodeInt(PlayerDisconnectedId) + EncodeInt(playerId)
  }

  /** `[6][id][health]`. */
  function PlayerHealthBody(player: PlayerView): (b: seq<byte>)
    ensures |b| == 12
  {
    EncodeInt(PlayerHealthId) + EncodeInt(player.id) + player.health
  }

  /** `[7][id]`. */
  function PlayerRespawnedBody(player: PlayerView): (b: seq<byte>)
    ensures |b| == 8
  {
    EncodeInt(PlayerRespawnedId) + EncodeInt(player.id)
  }

  /** A client that has cut a Welcome body out of the stream reads the id,
      the text (with non-ASCII characters as '?') and its own slot id, in
      that order, and nothing is left over. */
  lemma WelcomeReadsBack(toClient: int32, msg: string)
    requires StringFits(msg)
    ensures var b := WelcomeBody(toClient, msg);
      var id := IntAt(View(b, b, 0), true);
      var text := StringAt(id.after, true);
      var to := IntAt(text.after, true);
      id.result == Ok(WelcomeId) && text.result == Ok(DecodeAscii(EncodeAscii(msg)))
      && to.result == Ok(toClient) && to.after.pos == |b|
  {
    var n := |msg|;
    var i, s, t := EncodeInt(WelcomeId), EncodeString(msg), EncodeInt(toClient);
    var b := WelcomeBody(toClient, msg);
    Within(i + s, t, 0, 4);
    Within(i, s, 0, 4);
    assert i[0..4] == i;
    IntAtEncoding(b, 0, WelcomeId);
    Within(i + s, t, 4, 8 + n);
    Last(i, s);
    StringAtEncoding(b, 4, msg);
    Last(i + s, t);
    IntAtEncoding(b, 8 + n, toClient);
  }

  /** A client that has cut a SpawnPlayer body out of the stream reads the
      id, the player's id and name, then the position and rotation words,
      and nothing is left over. */
  lemma SpawnPlayerReadsBack(player: PlayerView)
    ensures var b := SpawnPlayerBody(player);
      var id := IntAt(View(b, b, 0), true);
      var who := IntAt(id.after, true);
      var name := StringAt(who.after, true);
      var position := Vector3At(name.after, true);
      var rotation := QuaternionAt(position.after, true);
      id.result == Ok(SpawnPlayerId) && who.result == Ok(player.id)
      && name.result == Ok(DecodeAscii(EncodeAscii(player.username)))
      && position.result == Ok(player.position) && rotation.result == Ok(player.rotation)
      && rotation.after.pos == |b|
  {
    var n := |player.username|;
    var i, w, s := EncodeInt(SpawnPlayerId), EncodeInt(player.id), EncodeString(player.username);
    var v, q := EncodeVector3(player.position), EncodeQuaternion(player.rotation);
    var b := SpawnPlayerBody(player);
    // b == (((i + w) + s) + v) + q
    Within(i + w + s + v, q, 0, 4);
    Within(i + w + s, v, 0, 4);
    Within(i + w, s, 0, 4);
    Within(i, w, 0, 4);
    assert i[0..4] == i;
    IntAtEncoding(b, 0, SpawnPlayerId);
    Within(i + w + s + v, q, 4, 8);
    Within(i + w + s, v, 4, 8);
    Within(i + w, s, 4, 8);
    Last(i, w);
    IntAtEncoding(b, 4, player.id);
    Within(i + w + s + v, q, 8, 12 + n);
    Within(i + w + s, v, 8, 12 + n);
    Last(i + w, s);
    StringAtEncoding(b, 8, player.username);
    Within(i + w + s + v, q, 12 + n, 24 + n);
    Last(i + w + s, v);
    Vector3AtEncoding(b, 12 + n, player.position);
    Last(i + w + s + v, q);
    QuaternionAtEncoding(b, 24 + n, player.rotation);
  }

  /** The two-int messages (PlayerDisconnected, PlayerRespawned) read back as
      their packet id followed by the player id. */
  lemma IdMessageReadsBack(packetId: int32, playerId: int32)
    ensures var b := EncodeInt(packetId) + EncodeInt(playerId);
      IntAt(View(b, b, 0), true) == Read(Ok(packetId), View(b, b, 4))
      && IntAt(View(b, b, 4), true) == Read(Ok(playerId), View(b, b, 8)) && |b| == 8
  {
    var i, w := EncodeInt(packetId), EncodeInt(playerId);
    var b := i + w;
    Within(i, w, 0, 4);
    assert i[0..4] == i;
    IntAtEncoding(b, 0, packetId);
    Last(i, w);
    IntAtEncoding(b, 4, playerId);
  }

  /** A PlayerPosition body reads back as its id, the player's id and the
      position, with nothing left over. */
  lemma PlayerPositionReadsBack(player: PlayerView)
    ensures var b := PlayerPositionBody(player);
      var id := IntAt(View(b, b, 0), true);
      var who := IntAt(id.after, true);
      var position := Vector3At(who.after, true);
      id.result == Ok(PlayerPositionId) && who.result == Ok(player.id)
      && position.result == Ok(player.position) && position.after.pos == |b|
  {
    var i, w, v := EncodeInt(PlayerPositionId), EncodeInt(player.id), EncodeVector3(player.position);
    var b := PlayerPositionBody(player);
    IdMessageReadsBack(PlayerPositionId, player.id);
    Within(i + w, v, 0, 8);
    ReadVector3AfterWrite(i + w, player.position, []);
    assert b == i + w + EncodeVector3(player.position) + [];
    assert IntAt(View(b, b, 0), true) == Read(Ok(PlayerPositionId), View(b, b, 4)) by {
      Within(i, w + v, 0, 4);
      assert b == i + (w + v);
      assert i[0..4] == i;
      IntAtEncoding(b, 0, PlayerPositionId);
    }
    assert IntAt(View(b, b, 4), true) == Read(Ok(player.id), View(b, b, 8)) by {
      assert b[4..8] == w;
      IntAtEncoding(b, 4, player.id);
    }
  }

  /** A PlayerRotation body reads back as its id, the player's id and the
      rotation, with nothing left over. */
  lemma PlayerRotationReadsBack(player: PlayerView)
    ensures var b := PlayerRotationBody(player);
      var id := IntAt(View(b, b, 0), true);
      var who := IntAt(id.after, true);
      var rotation := QuaternionAt(who.after, true);
      id.result == Ok(PlayerRotationId) && who.result == Ok(player.id)
      && rotation.result == Ok(player.rotation) && rotation.after.pos == |b|
  {
    var i, w, q := EncodeInt(PlayerRotationId), EncodeInt(player.id), EncodeQuaternion(player.rotation);
    var b := PlayerRotationBody(player);
    ReadQuaternionAfterWrite(i + w, player.rotation, []);
    assert b == i + w + EncodeQuaternion(player.rotation) + [];
    assert IntAt(View(b, b, 0), true) == Read(Ok(PlayerRotationId), View(b, b, 4)) by {
      assert b[0..4] == i;
      IntAtEncoding(b, 0, PlayerRotationId);
    }
    assert IntAt(View(b, b, 4), true) == Read(Ok(player.id), View(b, b, 8)) by {
      assert b[4..8] == w;
      IntAtEncoding(b, 4, player.id);
    }
  }

  /** A PlayerHealth body reads back as its id, the player's id and the
      health word, with nothing left over. */
  lemma PlayerHealthReadsBack(player: PlayerView)
    ensures var b := PlayerHealthBody(player);
      var id := IntAt(View(b, b, 0), true);
      var who := IntAt(id.after, true);
      var health := FloatAt(who.after, true);
      id.result == Ok(PlayerHealthId) && who.result == Ok(player.id)
      && health.result == Ok(player.health) && health.after.pos == |b|
  {
    var i, w := EncodeInt(PlayerHealthId), EncodeInt(player.id);
    var b := PlayerHealthBody(player);
    assert b[0..4] == i;
    IntAtEncoding(b, 0, PlayerHealthId);
    assert b[4..8] == w;
    IntAtEncoding(b, 4, player.id);
    assert b[8..12] == player.health;
    FloatAtWord(b, 8, player.health);
  }

  // ---------------------------------------------------------------------------
  // Builders

  /** `Welcome`: by TCP to the addressed slot only. */
  method Welcome(clients: map<int, Client>, toClient: int32, msg: string) returns (sent: seq<Send>)
    requires toClient in clients && StringFits(msg)
    ensures sent == StreamTo(Sockets(clients), toClient, Frame(WelcomeBody(toClient, msg)))
  {
    var packet := new Packet.WithId(WelcomeId);
    packet.WriteString(msg);
    packet.WriteInt(toClient);
    sent := SendTcpData(clients, toClient, packet);
  }

  /** `SpawnPlayer`: by TCP to one slot. */
  method SpawnPlayer(clients: map<int, Client>, toClient: int, player: PlayerView) returns (sent: seq<Send>)
    requires toClient in clients
    ensures sent == StreamTo(Sockets(clients), toClient, Frame(SpawnPlayerBody(player)))
  {
    var packet := new Packet.WithId(SpawnPlayerId);
    packet.WriteInt(player.id);
    packet.WriteString(player.username);
    packet.WriteVector3(player.position);
    packet.WriteQuaternion(player.rotation);
    sent := SendTcpData(clients, toClient, packet);
  }

  /** `PlayerPosition`: by UDP to every slot, the player's own included. */
  method PlayerPosition(clients: map<int, Client>, max: int, player: PlayerView) returns (sent: seq<Send>)
    requires Table(clients, max)
    ensures sent == DatagramSends(Endpoints(clients), Recipients(max, None), Frame(PlayerPositionBody(player)))
  {
    ghost var endpoints := Endpoints(clients);
    var packet := new Packet.WithId(PlayerPositionId);
    packet.WriteInt(player.id);
    packet.WriteVector3(player.position);
    assert packet.buffer == PlayerPositionBody(player);
    assert endpoints == Endpoints(clients);
    sent := SendUdpDataToAll(clients, max, None, packet);
    assert endpoints == Endpoints(clients);
  }

  /** `PlayerRotation`: by UDP to every slot but the player's own. */
  method PlayerRotation(clients: map<int, Client>, max: int, player: PlayerView) returns (sent: seq<Send>)
    requires Table(clients, max)
    ensures sent == DatagramSends(Endpoints(clients), Recipients(max, Some(player.id as int)), Frame(PlayerRotationBody(player)))
  {
    ghost var endpoints := Endpoints(clients);
    var packet := new Packet.WithId(PlayerRotationId);
    packet.WriteInt(player.id);
    packet.WriteQuaternion(player.rotation);
    assert packet.buffer == PlayerRotationBody(player);
    assert endpoints == Endpoints(clients);
    sent := SendUdpDataToAll(clients, max, Some(player.id as int), packet);
    assert endpoints == Endpoints(clients);
  }

  /** `PlayerDisconnected`: by TCP to every slot. */
  method PlayerDisconnected(clients: map<int, Client>, max: int, playerId: int32) returns (sent: seq<Send>)
    requires Table(clients, max)
    ensures sent == StreamSends(Sockets(clients), Recipients(max, None), Frame(PlayerDisconnectedBody(playerId)))
  {
    ghost var sockets := Sockets(clients);
    var packet := new Packet.WithId(PlayerDisconnectedId);
    packet.WriteInt(playerId);
    assert packet.buffer == PlayerDisconnectedBody(playerId);
    assert sockets == Sockets(clients);
    sent := SendTcpDataToAll(clients, max, None, packet);
    assert sockets == Sockets(clients);
  }

  /** `PlayerHealth`: by TCP to every slot. */
  method PlayerHealth(clients: map<int, Client>, max: int, player: PlayerView) returns (sent: seq<Send>)
    requires Table(clients, max)
    ensures sent == StreamSends(Sockets(clients), Recipients(max, None), Frame(PlayerHealthBody(player)))
  {
    ghost var sockets := Sockets(clients);
    var packet := new Packet.WithId(PlayerHealthId);
    packet.WriteInt(player.id);
    packet.WriteFloat(player.health);
    assert packet.buffer == PlayerHealthBody(player);
    assert sockets == Sockets(clients);
    sent := SendTcpDataToAll(clients, max, None, packet);
    assert sockets == Sockets(clients);
  }

  /** `PlayerRespawned`: by TCP to every slot. */
  method PlayerRespawned(clients: map<int, Client>, max: int, player: PlayerView) returns (sent: seq<Send>)
    requires Table(clients, max)
    ensures sent == StreamSends(Sockets(clients), Recipients(max, None), Frame(PlayerRespawnedBody(player)))
  {
    ghost var sockets := Sockets(clients);
    var packet := new Packet.WithId(PlayerRespawnedId);
    packet.WriteInt(player.id);
    assert packet.buffer == PlayerRespawnedBody(player);
    assert sockets == Sockets(clients);
    sent := SendTcpDataToAll(clients, max, None, packet);
    assert sockets == Sockets(clients);
  }
}
