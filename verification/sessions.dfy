/** The per-slot session objects of `Client.cs`: the TCP side with its
    accumulation buffer, the UDP side with its bound endpoint, and the client
    that owns both and the player it controls. Socket calls are recorded as
    `Send` effects; the closures queued for the main thread are `Deferred`
    values. */
module Sessions {
  import opened Wire
  import opened Packets
  import opened MainThread
  import opened Framing

  /** An accepted TCP connection (a `TcpClient`), by identity. */
  type Connection = nat

  /** A UDP peer. `IPEndPoint.ToString` prints address and port, so two
      endpoints print the same exactly when they are equal. */
  datatype Endpoint = Endpoint(address: seq<byte>, port: nat)

  /** One transmission: a write on a stream, or a datagram to an endpoint. */
  datatype Send =
    | Stream(connection: Connection, bytes: seq<byte>)
    | Datagram(to: Endpoint, bytes: seq<byte>)

  /** The closures handed to the main thread. */
  datatype Deferred =
    /** Decode the packet id from `body` and call its handler for `slot`. */
    | Dispatch(slot: int32, body: seq<byte>)
    /** Destroy the slot's player object and forget the player. */
    | DestroyPlayer(slot: int32)

  /** A user name: any string .NET can hold. */
  type Name = s: string | StringFits(s)

  /** The fields of a slot's `Player` the protocol reads. */
  datatype PlayerView = PlayerView(id: int32, username: Name, position: Vector3, rotation: Quaternion, health: Word)

  /** One dispatch per frame, in frame order. */
  function Dispatches(slot: int32, frames: seq<seq<byte>>): (ds: seq<Deferred>)
    ensures |ds| == |frames|
    ensures forall i :: 0 <= i < |frames| ==> ds[i] == Dispatch(slot, frames[i])
  {
    seq(|frames|, i requires 0 <= i < |frames| => Dispatch(slot, frames[i]))
  }

  /** Queuing the dispatch of one more frame extends the queued dispatches by it. */
  lemma DispatchesSnoc(before: seq<Deferred>, slot: int32, frames: seq<seq<byte>>, frame: seq<byte>)
    ensures before + Dispatches(slot, frames) + [Dispatch(slot, frame)] == before + Dispatches(slot, frames + [frame])
  {
    assert Dispatches(slot, frames + [frame]) == Dispatches(slot, frames) + [Dispatch(slot, frame)];
  }

  /** An accumulation buffer between reads: its snapshot is current and the
      cursor is inside it. */
  predicate Accumulating(v: View)
  {
    Snapshotted(v) && 0 <= v.pos <= |v.buffer|
  }

  /** `ReadInt` on an accumulation buffer with a whole length prefix
      under the cursor. */
  method ReadLength(packet: Packet, ghost buf: seq<byte>, ghost at: nat) returns (length: int32)
    requires packet.buffer == buf && packet.readable == buf && packet.readPos == at && at + 4 <= |buf|
    modifies packet`readPos
    ensures length == LengthAt(buf, at) && packet.readPos == at + 4
  {
    assert packet.State() == View(buf, buf, at);
    var r := packet.ReadInt();
    length := r.value;
  }

  /** `ReadBytes` of a frame body that is all present. */
  method ReadFrame(packet: Packet, length: int32, ghost buf: seq<byte>, ghost from: nat) returns (frame: seq<byte>)
    requires packet.buffer == buf && packet.readPos == from < |buf| && 0 <= length <= |buf| - from
    modifies packet`readPos
    ensures frame == buf[from..from + length] && packet.readPos == from + length
  {
    var r := packet.ReadBytes(length);
    frame := r.value;
  }

  /** One turn of the framing loop: reads the frame whose prefix was just
      read and queues its dispatch; the scan has then passed that frame. */
  method QueueFrame(slot: int32, packet: Packet, length: int32, main: ThreadManager<Deferred>,
                    ghost buf: seq<byte>, ghost pos0: nat, ghost emitted: seq<seq<byte>>, ghost at: nat, ghost next: nat, ghost before: seq<Deferred>)
      returns (frame: seq<byte>)
    requires pos0 <= at && at + 4 <= |buf| && ScannedUpTo(buf, pos0, emitted, at)
    requires packet.buffer == buf && packet.readPos == at + 4
    requires length == LengthAt(buf, at) && 0 < length <= |buf| - (at + 4) && next == at + 4 + length
    requires main.Valid() && main.pending == before + Dispatches(slot, emitted)
    modifies packet`readPos, main`pending, main`hasPending
    ensures frame == buf[at + 4..next] && packet.readPos == next
    ensures ScannedUpTo(buf, pos0, emitted + [frame], next)
    ensures main.Valid() && main.pending == before + Dispatches(slot, emitted + [frame])
  {
    frame := ReadFrame(packet, length, buf, at + 4);
    ScannedStep(buf, pos0, emitted, at, frame, next);
    main.ExecuteOnMainThread(Some(Dispatch(slot, frame)));
    DispatchesSnoc(before, slot, emitted, frame);
  }

  /** `Server.SendUDPData`: a datagram to the endpoint, or nothing when the
      endpoint is null. */
  method SendUdpData(endpoint: Option<Endpoint>, packet: Packet) returns (sent: seq<Send>)
    modifies packet`readable
    ensures endpoint.None? ==> sent == []
    ensures endpoint.Some? ==> sent == [Datagram(endpoint.value, packet.buffer)]
  {
    sent := [];
    if endpoint.Some? {
      var bytes := packet.ToArray();
      sent := [Datagram(endpoint.value, bytes)];
    }
  }

  /** `Client.TCP`. The receive buffer and stream are socket plumbing; the
      accumulation buffer `received` is null before `Connect` and after
      `Disconnect`. */
  class Tcp {
    const id: int32
    var socket: Option<Connection>
    var received: Packet?

    constructor (id: int32)
      ensures this.id == id && socket.None? && received == null
    {
      this.id := id;
      socket, received := None, null;
    }

    /** The accumulation buffer as bytes and cursor. */
    function Accumulated(): Accumulator
      reads this, received
      requires received != null && Accumulating(received.State())
    {
      Accumulator(received.buffer, received.readPos)
    }

    /** Binds the connection and starts with an empty accumulation buffer. */
    method Connect(connection: Connection)
      modifies this`socket, this`received
      ensures socket == Some(connection) && received != null && fresh(received)
      ensures received.State() == View([], [], 0)
    {
      socket := Some(connection);
      received := new Packet();
    }

    /** Writes the whole packet on the stream, or nothing when there is no socket. */
    method SendData(packet: Packet) returns (sent: seq<Send>)
      modifies packet`readable
      ensures socket.None? ==> sent == []
      ensures socket.Some? ==> sent == [Stream(socket.value, packet.buffer)]
    {
      sent := [];
      if socket.Some? {
        var bytes := packet.ToArray();
        sent := [Stream(socket.value, bytes)];
      }
    }

    /** Appends a chunk and queues a dispatch for every complete frame, in
        order: exactly the frames `ScanFrom` finds from the old cursor. The
        result says whether to clear the buffer (`true`) or rewind onto the
        last length prefix (`false`), and the cursor is where the scan ends. */
    method HandleData(data: seq<byte>, main: ThreadManager<Deferred>) returns (clear: bool)
      requires received != null && Accumulating(received.State()) && main.Valid()
      modifies received, main`pending, main`hasPending
      ensures main.Valid()
      ensures var buf := old(received.buffer) + data;
        var s := ScanFrom(buf, old(received.readPos));
        received.State() == View(buf, buf, s.pos) && clear == (s.verdict == Clear)
        && main.pending == old(main.pending) + Dispatches(id, s.frames)
    {
      var packet := received;
      var packetLength: int32 := 0;
      packet.SetBytes(data);
      ghost var buf := packet.buffer;
      ghost var pos0 := packet.readPos;
      ghost var emitted: seq<seq<byte>> := [];
      ghost var at: nat := pos0;
      ghost var prefixed := false;
      ScannedFromStart(buf, pos0);
      assert main.pending == old(main.pending) + Dispatches(id, emitted);
      // The source returns `true` as soon as it reads a length <= 0; here that
      // case leaves the loop and meets the same `packetLength <= 1` answer.
      if packet.UnreadLength() >= 4 {
        packetLength := ReadLength(packet, buf, at);
        prefixed := true;
      }
      while packetLength > 0 && packetLength <= packet.UnreadLength()
        invariant packet.buffer == buf && packet.readable == buf
        invariant pos0 <= at <= |buf| && ScannedUpTo(buf, pos0, emitted, at)
        invariant !prefixed ==> packetLength == 0 && packet.readPos == at && |buf| - at < 4
        invariant prefixed ==> packet.readPos == at + 4 <= |buf| && packetLength == LengthAt(buf, at)
        invariant main.Valid() && main.pending == old(main.pending) + Dispatches(id, emitted)
        decreases |buf| - at
      {
        ghost var next: nat := at + 4 + packetLength;
        var frame := QueueFrame(id, packet, packetLength, main, buf, pos0, emitted, at, next, old(main.pending));
        emitted := emitted + [frame];
        at := next;
        packetLength := 0;
        prefixed := false;
        if packet.UnreadLength() >= 4 {
          packetLength := ReadLength(packet, buf, at);
          prefixed := true;
        }
      }
      if prefixed {
        ScannedStopsAtLength(buf, pos0, emitted, at);
      } else {
        ScannedStopsShort(buf, pos0, emitted, at);
      }
      return packetLength <= 1;
    }

    /** `ReceiveCallback` for a read of one or more bytes: `HandleData`, then
        `Reset` with its result. The accumulation buffer and the queued
        dispatches are one step of `Receive`. */
    method ReceiveChunk(data: seq<byte>, main: ThreadManager<Deferred>)
      requires received != null && Accumulating(received.State()) && main.Valid()
      modifies received, main`pending, main`hasPending
      ensures main.Valid() && Accumulating(received.State())
      ensures var step := Receive(old(Accumulated()), data);
        Accumulated() == step.0 && main.pending == old(main.pending) + Dispatches(id, step.1)
    {
      ghost var buf := received.buffer + data;
      ghost var pos0 := received.readPos;
      var clear := HandleData(data, main);
      RewindPointsAtPrefix(buf, pos0);
      received.Reset(clear);
    }

    /** Closes the socket and drops the buffers. A null socket would throw;
        the only caller has just dereferenced it. */
    method Disconnect()
      requires socket.Some?
      modifies this`socket, this`received
      ensures socket.None? && received == null
    {
      socket := None;
      received := null;
    }
  }

  /** What `UDP.HandleData` reads from a datagram whose cursor is past the
      sender's slot id: a length, then that many bytes. */
  function DatagramBodyAt(v: View): Read<seq<byte>>
  {
    var length := IntAt(v, true);
    if length.result.Err? then Read(Err(length.result.error), length.after)
    else BytesAt(length.after, length.result.value, true)
  }

  /** A datagram `[slot id][length][body]...`: the body comes back whole,
      whatever follows it, and the cursor ends right after it. `ReadBytes`
      refuses to start at the very end of the buffer, so an empty body with
      nothing after it is not read (see `EmptyFinalDatagramBodyFails`). */
  lemma DatagramBodyOfFrame(slotId: int32, body: seq<byte>, extra: seq<byte>)
    requires |body| < 0x8000_0000 && body + extra != []
    ensures var d := EncodeInt(slotId) + Frame(body) + extra;
      DatagramBodyAt(View(d, d, 4)) == Read(Ok(body), View(d, d, 8 + |body|))
  {
    var d := EncodeInt(slotId) + Frame(body) + extra;
    assert d == EncodeInt(slotId) + EncodeInt(|body|) + (body + extra);
    ReadIntAfterWrite(EncodeInt(slotId), |body|, body + extra, true);
    assert d[8..8 + |body|] == body;
  }

  /** A datagram that ends right after a zero length: nothing is left to
      start reading at, so the read fails instead of yielding an empty body. */
  lemma EmptyFinalDatagramBodyFails(slotId: int32)
    ensures var d := EncodeInt(slotId) + Frame([]);
      DatagramBodyAt(View(d, d, 4)).result == Err(CouldNotRead(BytesKind))
  {
    var d := EncodeInt(slotId) + Frame([]);
    assert d == EncodeInt(slotId) + EncodeInt(0) + [];
    ReadIntAfterWrite(EncodeInt(slotId), 0, [], true);
  }

  /** A negative declared length is a range failure and nothing is taken. */
  lemma NegativeDatagramLengthFails(slotId: int32, length: int32, rest: seq<byte>)
    requires length < 0
    ensures var d := EncodeInt(slotId) + EncodeInt(length) + rest;
      DatagramBodyAt(View(d, d, 4)).result.Err?
  {
    var d := EncodeInt(slotId) + EncodeInt(length) + rest;
    ReadIntAfterWrite(EncodeInt(slotId), length, rest, true);
  }

  /** `Client.UDP`: the endpoint datagrams for this slot must come from. */
  class Udp {
    const id: int32
    var endpoint: Option<Endpoint>

    constructor (id: int32)
      ensures this.id == id && endpoint.None?
    {
      this.id := id;
      endpoint := None;
    }

    method Connect(endpoint: Endpoint)
      modifies this`endpoint
      ensures this.endpoint == Some(endpoint)
    {
      this.endpoint := Some(endpoint);
    }

    /** Sends through `Server.SendUDPData`, so nothing goes out before a bind. */
    method SendData(packet: Packet) returns (sent: seq<Send>)
      modifies packet`readable
      ensures endpoint.None? ==> sent == []
      ensures endpoint.Some? ==> sent == [Datagram(endpoint.value, packet.buffer)]
    {
      sent := SendUdpData(endpoint, packet);
    }

    /** Reads a length and that many bytes and queues them as one dispatch
        for this slot. A failed read throws before anything is queued. */
    method HandleData(packet: Packet, main: ThreadManager<Deferred>) returns (r: Result<seq<byte>>)
      requires main.Valid()
      modifies packet`readPos, main`pending, main`hasPending
      ensures main.Valid()
      ensures Read(r, packet.State()) == DatagramBodyAt(old(packet.State()))
      ensures r.Ok? ==> main.pending == old(main.pending) + [Dispatch(id, r.value)]
      ensures r.Err? ==> main.pending == old(main.pending)
    {
      var length := packet.ReadInt();
      if length.Err? {
        return Err(length.error);
      }
      r := packet.ReadBytes(length.value);
      if r.Ok? {
        main.ExecuteOnMainThread(Some(Dispatch(id, r.value)));
      }
    }

    method Disconnect()
      modifies this`endpoint
      ensures endpoint.None?
    {
      endpoint := None;
    }
  }

  /** `Client`: one slot of the server, with its two transports and its player. */
  class Client {
    const id: int32
    const tcp: Tcp
    const udp: Udp
    var player: Option<PlayerView>

    constructor (id: int32)
      ensures this.id == id && player.None?
      ensures fresh(tcp) && tcp.id == id && tcp.socket.None? && tcp.received == null
      ensures fresh(udp) && udp.id == id && udp.endpoint.None?
    {
      this.id := id;
      tcp := new Tcp(id);
      udp := new Udp(id);
      player := None;
    }
  }
}
