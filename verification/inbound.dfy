/** `ServerHandle`: the order in which each handler reads its packet. A handler
    stops at the first read that throws; the packet's cursor is then wherever
    that read left it. */
module Inbound {
  import opened Wire
  import opened Packets

  /** Why a handler stops before acting: a read threw, or `new bool[n]` was
      given a negative count. */
  datatype Failure = ReadFailed(error: ReadError) | NegativeCount(count: int32)

  datatype Outcome<T> = Done(value: T) | Threw(failure: Failure)

  /** A handler's decoded arguments (or its failure) and the view after it. */
  datatype Parsed<T> = Parsed(result: Outcome<T>, after: View)

  /** `WelcomeReceived`: the id the client believes it has, then its user name. */
  function WelcomeReceivedAt(v: View): Parsed<(int32, string)>
  {
    var id := IntAt(v, true);
    if id.result.Err? then Parsed(Threw(ReadFailed(id.result.error)), id.after) else
    var name := StringAt(id.after, true);
    if name.result.Err? then Parsed(Threw(ReadFailed(name.result.error)), name.after) else
    Parsed(Done((id.result.value, name.result.value)), name.after)
  }

  /** `n` moving bool reads in a row, stopping at the first that throws. */
  function BoolsAt(v: View, n: nat): Parsed<seq<bool>>
  {
    if n == 0 then Parsed(Done([]), v) else
    var init := BoolsAt(v, n - 1);
    if init.result.Threw? then init else
    var b := BoolAt(init.after, true);
    if b.result.Err? then Parsed(Threw(ReadFailed(b.result.error)), b.after) else
    Parsed(Done(init.result.value + [b.result.value]), b.after)
  }

  /** `PlayerMovement`: a count, that many input bools, then the rotation. */
  function PlayerMovementAt(v: View): Parsed<(seq<bool>, Quaternion)>
  {
    var count := IntAt(v, true);
    if count.result.Err? then Parsed(Threw(ReadFailed(count.result.error)), count.after) else
    var n := count.result.value;
    if n < 0 then Parsed(Threw(NegativeCount(n)), count.after) else
    var inputs := BoolsAt(count.after, n);
    if inputs.result.Threw? then Parsed(Threw(inputs.result.failure), inputs.after) else
    var rotation := QuaternionAt(inputs.after, true);
    if rotation.result.Err? then Parsed(Threw(ReadFailed(rotation.result.error)), rotation.after) else
    Parsed(Done((inputs.result.value, rotation.result.value)), rotation.after)
  }

  /** `PlayerShoot`: the shot direction. */
  function PlayerShootAt(v: View): Parsed<Vector3>
  {
    var direction := Vector3At(v, true);
    if direction.result.Err? then Parsed(Threw(ReadFailed(direction.result.error)), direction.after) else
    Parsed(Done(direction.result.value), direction.after)
  }

  // ---------------------------------------------------------------------------
  // The handlers' reads on a packet

  method ReadWelcomeReceived(packet: Packet) returns (r: Outcome<(int32, string)>)
    modifies packet`readPos
    ensures Parsed(r, packet.State()) == WelcomeReceivedAt(old(packet.State()))
  {
    var id := packet.ReadInt();
    if id.Err? { return Threw(ReadFailed(id.error)); }
    var name := packet.ReadString();
    if name.Err? { return Threw(ReadFailed(name.error)); }
    r := Done((id.value, name.value));
  }

  method ReadPlayerMovement(packet: Packet) returns (r: Outcome<(seq<bool>, Quaternion)>)
    modifies packet`readPos
    ensures Parsed(r, packet.State()) == PlayerMovementAt(old(packet.State()))
  {
    var count := packet.ReadInt();
    if count.Err? { return Threw(ReadFailed(count.error)); }
    if count.value < 0 { return Threw(NegativeCount(count.value)); }
    var inputs := ReadInputs(packet, count.value);
    if inputs.Threw? { return Threw(inputs.failure); }
    var rotation := packet.ReadQuaternion();
    if rotation.Err? { return Threw(ReadFailed(rotation.error)); }
    r := Done((inputs.value, rotation.value));
  }

  /** Fills a fresh `bool[n]` one read at a time, as the movement handler's
      loop does. */
  method ReadInputs(packet: Packet, n: int32) returns (r: Outcome<seq<bool>>)
    requires n >= 0
    modifies packet`readPos
    ensures Parsed(r, packet.State()) == BoolsAt(old(packet.State()), n)
  {
    var inputs := new bool[n];
    ghost var start := packet.State();
    ghost var read: seq<bool> := [];
    for i := 0 to inputs.Length
      invariant |read| == i && forall j :: 0 <= j < i ==> inputs[j] == read[j]
      invariant BoolsAt(start, i) == Parsed(Done(read), packet.State())
    {
      var b := packet.ReadBool();
      if b.Err? {
        BoolsAtStops(start, i + 1, inputs.Length);
        return Threw(ReadFailed(b.error));
      }
      inputs[i] := b.value;
      read := read + [b.value];
    }
    assert inputs[..] == read;
    r := Done(inputs[..]);
  }

  method ReadPlayerShoot(packet: Packet) returns (r: Outcome<Vector3>)
    modifies packet`readPos
    ensures Parsed(r, packet.State()) == PlayerShootAt(old(packet.State()))
  {
    var direction := packet.ReadVector3();
    if direction.Err? { return Threw(ReadFailed(direction.error)); }
    r := Done(direction.value);
  }

  // ---------------------------------------------------------------------------
  // What the handlers consume, and what they decode from what a client writes

  /** `n` successful bool reads return `n` values and move the cursor `n` bytes. */
  lemma {:induction false} BoolsAtAdvance(v: View, n: nat)
    requires BoolsAt(v, n).result.Done?
    ensures |BoolsAt(v, n).result.value| == n && BoolsAt(v, n).after == v.(pos := v.pos + n)
  {
    if n > 0 {
      BoolsAtAdvance(v, n - 1);
    }
  }

  /** A decoded movement consumed the count, one byte per input and four
      floats: 4 + n + 16 bytes. */
  lemma PlayerMovementConsumes(v: View)
    requires PlayerMovementAt(v).result.Done?
    ensures var m := PlayerMovementAt(v);
      m.after == v.(pos := v.pos + 4 + |m.result.value.0| + 16)
  {
    var count := IntAt(v, true);
    BoolsAtAdvance(count.after, count.result.value);
  }

  /** A decoded shot consumed exactly three floats. */
  lemma PlayerShootConsumes(v: View)
    requires PlayerShootAt(v).result.Done?
    ensures PlayerShootAt(v).after == v.(pos := v.pos + 12)
  {
  }

  /** What a client's `Write(bool)` calls put on the wire: one byte each. */
  function EncodeBools(bs: seq<bool>): (r: seq<byte>)
    ensures |r| == |bs|
    ensures forall k :: 0 <= k < |bs| ==> r[k] == EncodeBool(bs[k])[0]
  {
    seq(|bs|, k requires 0 <= k < |bs| => EncodeBool(bs[k])[0])
  }

  lemma BoolAtEncoding(b: seq<byte>, k: nat, x: bool)
    requires k < |b| && b[k] == EncodeBool(x)[0]
    ensures BoolAt(View(b, b, k), true) == Read(Ok(x), View(b, b, k + 1))
  {
    assert b[k..k + 1] == [b[k]];
  }

  /** Bytes that encode `bs` one by one read back as `bs`. */
  lemma {:induction false} BoolsAtBytes(b: seq<byte>, pos: nat, bs: seq<bool>)
    requires pos + |bs| <= |b|
    requires forall k :: 0 <= k < |bs| ==> b[pos + k] == EncodeBool(bs[k])[0]
    ensures BoolsAt(View(b, b, pos), |bs|) == Parsed(Done(bs), View(b, b, pos + |bs|))
  {
    if bs != [] {
      var n := |bs| - 1;
      var init := bs[..n];
      assert init + [bs[n]] == bs;
      BoolsAtBytes(b, pos, init);
      BoolAtEncoding(b, pos + n, bs[n]);
      BoolsAtSnoc(View(b, b, pos), n, init, View(b, b, pos + n), bs[n], View(b, b, pos + n + 1));
    }
  }

  lemma BoolsAtEncoding(b: seq<byte>, pos: nat, bs: seq<bool>)
    requires pos + |bs| <= |b| && b[pos..pos + |bs|] == EncodeBools(bs)
    ensures BoolsAt(View(b, b, pos), |bs|) == Parsed(Done(bs), View(b, b, pos + |bs|))
  {
    forall k | 0 <= k < |bs|
      ensures b[pos + k] == EncodeBool(bs[k])[0]
    {
      assert b[pos + k] == b[pos..pos + |bs|][k];
    }
    BoolsAtBytes(b, pos, bs);
  }

  /** One more successful bool read appends its value. */
  lemma BoolsAtSnoc(v: View, n: nat, xs: seq<bool>, mid: View, x: bool, after: View)
    requires BoolsAt(v, n) == Parsed(Done(xs), mid) && BoolAt(mid, true) == Read(Ok(x), after)
    ensures BoolsAt(v, n + 1) == Parsed(Done(xs + [x]), after)
  {
  }

  /** Once a bool read has thrown, reading more changes nothing. */
  lemma {:induction false} BoolsAtStops(v: View, i: nat, n: nat)
    requires i <= n && BoolsAt(v, i).result.Threw?
    ensures BoolsAt(v, n) == BoolsAt(v, i)
    decreases n
  {
    if i < n {
      BoolsAtStops(v, i, n - 1);
    }
  }

  /** What a client's `Write(int); Write(bool)...; Write(Quaternion)` produces
      decodes to the same inputs and rotation, whatever follows it. */
  lemma PlayerMovementRoundTrip(inputs: seq<bool>, rotation: Quaternion, rest: seq<byte>)
    requires |inputs| < 0x8000_0000
    ensures var b := EncodeInt(|inputs|) + EncodeBools(inputs) + EncodeQuaternion(rotation) + rest;
      PlayerMovementAt(View(b, b, 0)) == Parsed(Done((inputs, rotation)), View(b, b, 20 + |inputs|))
  {
    var c, i, q := EncodeInt(|inputs|), EncodeBools(inputs), EncodeQuaternion(rotation);
    var n := |inputs|;
    var b := c + i + q + rest;
    Within(c + i + q, rest, 0, 4);
    Within(c + i, q, 0, 4);
    Within(c, i, 0, 4);
    assert c[0..4] == c;
    IntAtEncoding(b, 0, n);
    Within(c + i + q, rest, 4, 4 + n);
    Within(c + i, q, 4, 4 + n);
    Last(c, i);
    BoolsAtEncoding(b, 4, inputs);
    Within(c + i + q, rest, 4 + n, 20 + n);
    Last(c + i, q);
    QuaternionAtEncoding(b, 4 + n, rotation);
  }

  /** A client's `Write(int); Write(string)` decodes to the same id and, for
      an ASCII name, the same name, wherever it starts and whatever follows. */
  lemma WelcomeReceivedRoundTrip(prefix: seq<byte>, id: int32, username: string, rest: seq<byte>)
    requires StringFits(username) && IsAscii(username)
    ensures var b := prefix + EncodeInt(id) + EncodeString(username) + rest;
      WelcomeReceivedAt(View(b, b, |prefix|)) == Parsed(Done((id, username)), View(b, b, |prefix| + 8 + |username|))
  {
    var p, i, s := |prefix|, EncodeInt(id), EncodeString(username);
    var b := prefix + i + s + rest;
    Within(prefix + i + s, rest, p, p + 4);
    Within(prefix + i, s, p, p + 4);
    Last(prefix, i);
    IntAtEncoding(b, p, id);
    Within(prefix + i + s, rest, p + 4, p + 8 + |username|);
    Last(prefix + i, s);
    StringAtEncoding(b, p + 4, username);
    AsciiRoundTrip(username);
  }

  /** A negative count throws before any input is read. */
  lemma NegativeCountThrows(count: int32, rest: seq<byte>)
    requires count < 0
    ensures var b := EncodeInt(count) + rest;
      PlayerMovementAt(View(b, b, 0)) == Parsed(Threw(NegativeCount(count)), View(b, b, 4))
  {
    var b := EncodeInt(count) + rest;
    assert b[0..4] == EncodeInt(count);
    IntAtEncoding(b, 0, count);
  }
}
