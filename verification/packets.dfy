/** The packet codec: an append-only byte buffer with a read cursor, typed
    little-endian writes and reads, and 4-byte length-prefix framing. */
module Packets {
  import opened Wire

  /** Ids of the packets the server sends (`ServerPackets`). */
  const WelcomeId: int32 := 1
  const SpawnPlayerId: int32 := 2
  const PlayerPositionId: int32 := 3
  const PlayerRotationId: int32 := 4
  const PlayerDisconnectedId: int32 := 5
  const PlayerHealthId: int32 := 6
  const PlayerRespawnedId: int32 := 7

  /** Ids of the packets the server receives (`ClientPackets`). */
  const WelcomeReceivedId: int32 := 1
  const PlayerMovementId: int32 := 2
  const PlayerShootId: int32 := 3

  /** The value type a failed read names in its exception. */
  datatype Kind = ByteKind | BytesKind | ShortKind | IntKind | LongKind | FloatKind | BoolKind | StringKind

  datatype ReadError =
    /** The packet's own guard: no unread byte is left in the written buffer. */
    | CouldNotRead(kind: Kind)
    /** A range failure inside the .NET conversion the read delegates to. */
    | OutOfRange(kind: Kind)

  datatype Result<T> = Ok(value: T) | Err(error: ReadError)

  /** What a read sees: the written bytes, the snapshot reads decode from
      (an absent snapshot is the empty one) and the cursor. */
  datatype View = View(buffer: seq<byte>, readable: seq<byte>, pos: int)

  /** The value or error of one read, and the view after it. */
  datatype Read<T> = Read(result: Result<T>, after: View)

  /** The view `ToArray`/`SetBytes` leave behind: the snapshot is the buffer. */
  predicate Snapshotted(v: View)
  {
    v.readable == v.buffer
  }

  function Advance(v: View, n: int, move: bool): View
  {
    if move then v.(pos := v.pos + n) else v
  }

  /** The `width` snapshot bytes under the cursor: the guard on the buffer
      comes first, then the conversion's own range check on the snapshot. */
  function Fixed(v: View, width: nat, kind: Kind): Result<seq<byte>>
  {
    if |v.buffer| <= v.pos then Err(CouldNotRead(kind))
    else if v.pos < 0 || v.pos + width > |v.readable| then Err(OutOfRange(kind))
    else Ok(v.readable[v.pos..v.pos + width])
  }

  function ByteAt(v: View, move: bool): Read<byte>
  {
    match Fixed(v, 1, ByteKind)
    case Err(e) => Read(Err(e), v)
    case Ok(s) => Read(Ok(s[0]), Advance(v, 1, move))
  }

  function ShortAt(v: View, move: bool): Read<int16>
  {
    match Fixed(v, 2, ShortKind)
    case Err(e) => Read(Err(e), v)
    case Ok(s) => Read(Ok(DecodeShort(s)), Advance(v, 2, move))
  }

  function IntAt(v: View, move: bool): Read<int32>
  {
    match Fixed(v, 4, IntKind)
    case Err(e) => Read(Err(e), v)
    case Ok(s) => Read(Ok(DecodeInt(s)), Advance(v, 4, move))
  }

  function LongAt(v: View, move: bool): Read<int64>
  {
    match Fixed(v, 8, LongKind)
    case Err(e) => Read(Err(e), v)
    case Ok(s) => Read(Ok(DecodeLong(s)), Advance(v, 8, move))
  }

  function FloatAt(v: View, move: bool): Read<Word>
  {
    match Fixed(v, 4, FloatKind)
    case Err(e) => Read(Err(e), v)
    case Ok(s) => Read(Ok(s), Advance(v, 4, move))
  }

  function BoolAt(v: View, move: bool): Read<bool>
  {
    match Fixed(v, 1, BoolKind)
    case Err(e) => Read(Err(e), v)
    case Ok(s) => Read(Ok(DecodeBool(s[0])), Advance(v, 1, move))
  }

  /** `ReadBytes` copies from the written buffer, not from the snapshot. */
  function BytesAt(v: View, length: int, move: bool): Read<seq<byte>>
  {
    if |v.buffer| <= v.pos then Read(Err(CouldNotRead(BytesKind)), v)
    else if v.pos < 0 || length < 0 || v.pos + length > |v.buffer| then Read(Err(OutOfRange(BytesKind)), v)
    else Read(Ok(v.buffer[v.pos..v.pos + length]), Advance(v, length, move))
  }

  /** `ReadString` reads its count with a moving `ReadInt` whatever `move`
      says, and skips the characters only when moving and the string is not
      empty. Every failure is reported as a string failure, including a count
      too large for a .NET string; one that happens after the count was read
      leaves the cursor past the count. */
  function StringAt(v: View, move: bool): (r: Read<string>)
    ensures r.result.Ok? ==> StringFits(r.result.value)
  {
    var count := IntAt(v, true);
    if count.result.Err? then Read(Err(CouldNotRead(StringKind)), v)
    else
      var n, w := count.result.value, count.after;
      if n < 0 || n > MaxStringLength || w.pos + n > |w.readable| then Read(Err(CouldNotRead(StringKind)), w)
      else Read(Ok(DecodeAscii(w.readable[w.pos..w.pos + n])), Advance(w, n, move && n > 0))
  }

  function Vector3At(v: View, move: bool): Read<Vector3>
  {
    var x := FloatAt(v, move);
    if x.result.Err? then Read(Err(x.result.error), x.after) else
    var y := FloatAt(x.after, move);
    if y.result.Err? then Read(Err(y.result.error), y.after) else
    var z := FloatAt(y.after, move);
    if z.result.Err? then Read(Err(z.result.error), z.after) else
    Read(Ok(Vector3(x.result.value, y.result.value, z.result.value)), z.after)
  }

  function QuaternionAt(v: View, move: bool): Read<Quaternion>
  {
    var x := FloatAt(v, move);
    if x.result.Err? then Read(Err(x.result.error), x.after) else
    var y := FloatAt(x.after, move);
    if y.result.Err? then Read(Err(y.result.error), y.after) else
    var z := FloatAt(y.after, move);
    if z.result.Err? then Read(Err(z.result.error), z.after) else
    var w := FloatAt(z.after, move);
    if w.result.Err? then Read(Err(w.result.error), w.after) else
    Read(Ok(Quaternion(x.result.value, y.result.value, z.result.value, w.result.value)), w.after)
  }

  /** A length-prefixed frame: what `WriteLength` turns a payload into. */
  function Frame(payload: seq<byte>): (r: seq<byte>)
    requires |payload| < 0x8000_0000
    ensures |r| == 4 + |payload|
  {
    EncodeInt(|payload|) + payload
  }

  // ---------------------------------------------------------------------------
  // What reading a written value gives back. `b` is a buffer whose snapshot is
  // current (after `ToArray` or `SetBytes`) and in which the value's encoding
  // starts at the cursor.

  lemma ReadByteAfterWrite(prefix: seq<byte>, value: byte, suffix: seq<byte>, move: bool)
    ensures var b := prefix + [value] + suffix;
      ByteAt(View(b, b, |prefix|), move) == Read(Ok(value), Advance(View(b, b, |prefix|), 1, move))
  {
    var b := prefix + [value] + suffix;
    assert b[|prefix|..|prefix| + 1] == [value];
  }

  lemma ReadShortAfterWrite(prefix: seq<byte>, value: int16, suffix: seq<byte>, move: bool)
    ensures var b := prefix + EncodeShort(value) + suffix;
      ShortAt(View(b, b, |prefix|), move) == Read(Ok(value), Advance(View(b, b, |prefix|), 2, move))
  {
    var b := prefix + EncodeShort(value) + suffix;
    assert b[|prefix|..|prefix| + 2] == EncodeShort(value);
    ShortRoundTrip(value);
  }

  lemma ReadIntAfterWrite(prefix: seq<byte>, value: int32, suffix: seq<byte>, move: bool)
    ensures var b := prefix + EncodeInt(value) + suffix;
      IntAt(View(b, b, |prefix|), move) == Read(Ok(value), Advance(View(b, b, |prefix|), 4, move))
  {
    var b := prefix + EncodeInt(value) + suffix;
    assert b[|prefix|..|prefix| + 4] == EncodeInt(value);
    IntRoundTrip(value);
  }

  lemma ReadLongAfterWrite(prefix: seq<byte>, value: int64, suffix: seq<byte>, move: bool)
    ensures var b := prefix + EncodeLong(value) + suffix;
      LongAt(View(b, b, |prefix|), move) == Read(Ok(value), Advance(View(b, b, |prefix|), 8, move))
  {
    var b := prefix + EncodeLong(value) + suffix;
    assert b[|prefix|..|prefix| + 8] == EncodeLong(value);
    LongRoundTrip(value);
  }

  lemma ReadFloatAfterWrite(prefix: seq<byte>, value: Word, suffix: seq<byte>, move: bool)
    ensures var b := prefix + value + suffix;
      FloatAt(View(b, b, |prefix|), move) == Read(Ok(value), Advance(View(b, b, |prefix|), 4, move))
  {
    var b := prefix + value + suffix;
    assert b[|prefix|..|prefix| + 4] == value;
  }

  lemma ReadBoolAfterWrite(prefix: seq<byte>, value: bool, suffix: seq<byte>, move: bool)
    ensures var b := prefix + EncodeBool(value) + suffix;
      BoolAt(View(b, b, |prefix|), move) == Read(Ok(value), Advance(View(b, b, |prefix|), 1, move))
  {
    var b := prefix + EncodeBool(value) + suffix;
    assert b[|prefix|..|prefix| + 1] == EncodeBool(value);
  }

  /** An ASCII string comes back whole. The count is always consumed; the
      characters are skipped only when moving. */
  lemma ReadStringAfterWrite(prefix: seq<byte>, value: string, suffix: seq<byte>, move: bool)
    requires StringFits(value) && IsAscii(value)
    ensures var b := prefix + EncodeString(value) + suffix;
      StringAt(View(b, b, |prefix|), move)
        == Read(Ok(value), View(b, b, |prefix| + 4 + (if move then |value| else 0)))
  {
    var b := prefix + EncodeString(value) + suffix;
    assert b == prefix + EncodeInt(|value|) + (EncodeAscii(value) + suffix);
    ReadIntAfterWrite(prefix, |value|, EncodeAscii(value) + suffix, true);
    assert b[|prefix| + 4..|prefix| + 4 + |value|] == EncodeAscii(value);
    AsciiRoundTrip(value);
  }

  /** A moving float read at a position where the word sits. */
  lemma FloatAtWord(b: seq<byte>, pos: nat, w: Word)
    requires pos + 4 <= |b| && b[pos..pos + 4] == w
    ensures FloatAt(View(b, b, pos), true) == Read(Ok(w), View(b, b, pos + 4))
  {
  }

  /** Slices of a concatenation, for locating one field of a message. */
  lemma Within(a: seq<byte>, r: seq<byte>, i: nat, j: nat)
    requires i <= j <= |a|
    ensures (a + r)[i..j] == a[i..j]
  {
  }

  lemma Last(a: seq<byte>, x: seq<byte>)
    ensures (a + x)[|a|..|a| + |x|] == x
  {
  }

  /** A moving int read at a position where the value's encoding sits. */
  lemma IntAtEncoding(b: seq<byte>, pos: nat, value: int32)
    requires pos + 4 <= |b| && b[pos..pos + 4] == EncodeInt(value)
    ensures IntAt(View(b, b, pos), true) == Read(Ok(value), View(b, b, pos + 4))
  {
    IntRoundTrip(value);
  }

  /** A moving string read at a position where a written string sits: the
      characters come back through the ASCII encoder. */
  lemma StringAtEncoding(b: seq<byte>, pos: nat, value: string)
    requires StringFits(value) && pos + 4 + |value| <= |b| && b[pos..pos + 4 + |value|] == EncodeString(value)
    ensures StringAt(View(b, b, pos), true)
      == Read(Ok(DecodeAscii(EncodeAscii(value))), View(b, b, pos + 4 + |value|))
  {
    var e := EncodeString(value);
    assert b[pos..pos + 4] == e[..4] == EncodeInt(|value|);
    IntAtEncoding(b, pos, |value|);
    assert b[pos + 4..pos + 4 + |value|] == e[4..] == EncodeAscii(value);
  }

  /** A slice of a slice is a slice of the whole. */
  lemma Inner(b: seq<byte>, pos: nat, len: nat, i: nat, j: nat)
    requires pos + len <= |b| && i <= j <= len
    ensures b[pos..pos + len][i..j] == b[pos + i..pos + j]
  {
    var s, r := b[pos..pos + len][i..j], b[pos + i..pos + j];
    assert |s| == |r|;
    forall k | 0 <= k < |s| ensures s[k] == r[k] {
      assert s[k] == b[pos + i + k];
    }
  }

  lemma Vector3AtEncoding(b: seq<byte>, pos: nat, value: Vector3)
    requires pos + 12 <= |b| && b[pos..pos + 12] == EncodeVector3(value)
    ensures Vector3At(View(b, b, pos), true) == Read(Ok(value), View(b, b, pos + 12))
  {
    var x: seq<byte>, y: seq<byte>, z: seq<byte> := value.x, value.y, value.z;
    Inner(b, pos, 12, 0, 4);
    Within(x + y, z, 0, 4);
    Within(x, y, 0, 4);
    assert x[0..4] == x;
    FloatAtWord(b, pos, x);
    Inner(b, pos, 12, 4, 8);
    Within(x + y, z, 4, 8);
    Last(x, y);
    FloatAtWord(b, pos + 4, y);
    Inner(b, pos, 12, 8, 12);
    Last(x + y, z);
    FloatAtWord(b, pos + 8, z);
  }

  lemma QuaternionAtEncoding(b: seq<byte>, pos: nat, value: Quaternion)
    requires pos + 16 <= |b| && b[pos..pos + 16] == EncodeQuaternion(value)
    ensures QuaternionAt(View(b, b, pos), true) == Read(Ok(value), View(b, b, pos + 16))
  {
    var x: seq<byte>, y: seq<byte>, z: seq<byte>, w: seq<byte> := value.x, value.y, value.z, value.w;
    Inner(b, pos, 16, 0, 4);
    Within(x + y + z, w, 0, 4);
    Within(x + y, z, 0, 4);
    Within(x, y, 0, 4);
    assert x[0..4] == x;
    FloatAtWord(b, pos, x);
    Inner(b, pos, 16, 4, 8);
    Within(x + y + z, w, 4, 8);
    Within(x + y, z, 4, 8);
    Last(x, y);
    FloatAtWord(b, pos + 4, y);
    Inner(b, pos, 16, 8, 12);
    Within(x + y + z, w, 8, 12);
    Last(x + y, z);
    FloatAtWord(b, pos + 8, z);
    Inner(b, pos, 16, 12, 16);
    Last(x + y + z, w);
    FloatAtWord(b, pos + 12, w);
  }

  lemma ReadVector3AfterWrite(prefix: seq<byte>, value: Vector3, suffix: seq<byte>)
    ensures var b := prefix + EncodeVector3(value) + suffix;
      Vector3At(View(b, b, |prefix|), true) == Read(Ok(value), View(b, b, |prefix| + 12))
  {
    var b := prefix + EncodeVector3(value) + suffix;
    var p := |prefix|;
    assert b[p..p + 4] == value.x;
    assert b[p + 4..p + 8] == value.y;
    assert b[p + 8..p + 12] == value.z;
    FloatAtWord(b, p, value.x);
    FloatAtWord(b, p + 4, value.y);
    FloatAtWord(b, p + 8, value.z);
  }

  lemma ReadQuaternionAfterWrite(prefix: seq<byte>, value: Quaternion, suffix: seq<byte>)
    ensures var b := prefix + EncodeQuaternion(value) + suffix;
      QuaternionAt(View(b, b, |prefix|), true) == Read(Ok(value), View(b, b, |prefix| + 16))
  {
    var b := prefix + EncodeQuaternion(value) + suffix;
    var p := |prefix|;
    assert b[p..p + 4] == value.x;
    assert b[p + 4..p + 8] == value.y;
    assert b[p + 8..p + 12] == value.z;
    assert b[p + 12..p + 16] == value.w;
    FloatAtWord(b, p, value.x);
    FloatAtWord(b, p + 4, value.y);
    FloatAtWord(b, p + 8, value.z);
    FloatAtWord(b, p + 12, value.w);
  }

  /** A non-moving vector read decodes the float under the cursor three times. */
  lemma PeekVector3RepeatsFirstFloat(v: View)
    requires FloatAt(v, false).result.Ok?
    ensures var x := FloatAt(v, false).result.value;
      Vector3At(v, false) == Read(Ok(Vector3(x, x, x)), v)
  {
  }

  /** Every fixed-width read fails with the type's own error, and leaves the
      cursor alone, once no unread byte is left in the buffer. */
  lemma ReadsFailAtEnd(v: View, move: bool)
    requires |v.buffer| <= v.pos
    ensures ByteAt(v, move) == Read(Err(CouldNotRead(ByteKind)), v)
    ensures ShortAt(v, move) == Read(Err(CouldNotRead(ShortKind)), v)
    ensures IntAt(v, move) == Read(Err(CouldNotRead(IntKind)), v)
    ensures LongAt(v, move) == Read(Err(CouldNotRead(LongKind)), v)
    ensures FloatAt(v, move) == Read(Err(CouldNotRead(FloatKind)), v)
    ensures BoolAt(v, move) == Read(Err(CouldNotRead(BoolKind)), v)
    ensures BytesAt(v, 0, move) == Read(Err(CouldNotRead(BytesKind)), v)
    ensures StringAt(v, move) == Read(Err(CouldNotRead(StringKind)), v)
  {
  }

  /** `ReadString(false)` is not a peek: once the count is readable the cursor
      moves past it, whether or not the characters can be read. */
  lemma StringPeekConsumesCount(v: View)
    requires IntAt(v, true).result.Ok?
    ensures StringAt(v, false).after == v.(pos := v.pos + 4)
  {
  }

  /** A moving read of the empty string skips only its count. */
  lemma EmptyStringSkipsOnlyCount(prefix: seq<byte>, suffix: seq<byte>)
    ensures var b := prefix + EncodeString("") + suffix;
      StringAt(View(b, b, |prefix|), true) == Read(Ok(""), View(b, b, |prefix| + 4))
  {
    ReadStringAfterWrite(prefix, "", suffix, true);
  }

  /** `new Packet(id)` followed by `ToArray` and `new Packet(bytes)`: the
      first int read back is the id. */
  lemma PacketIdRoundTrip(id: int32, rest: seq<byte>)
    ensures var b := EncodeInt(id) + rest;
      IntAt(View(b, b, 0), true) == Read(Ok(id), View(b, b, 4))
  {
    ReadIntAfterWrite([], id, rest, true);
    assert [] + EncodeInt(id) + rest == EncodeInt(id) + rest;
  }

  /** The first int of a frame is the number of bytes that follow it. */
  lemma FrameDeclaresItsLength(payload: seq<byte>)
    requires |payload| < 0x8000_0000
    ensures var b := Frame(payload);
      IntAt(View(b, b, 0), true) == Read(Ok(|b| - 4), View(b, b, 4)) && b[4..] == payload
  {
    PacketIdRoundTrip(|payload|, payload);
  }

  class Packet {
    var buffer: seq<byte>
    var readable: seq<byte>
    var readPos: int

    function State(): View
      reads this
    {
      View(buffer, readable, readPos)
    }

    constructor ()
      ensures State() == View([], [], 0)
    {
      buffer, readable, readPos := [], [], 0;
    }

    /** A packet to send, starting with its type id. */
    constructor WithId(id: int32)
      ensures State() == View(EncodeInt(id), [], 0)
    {
      buffer, readable, readPos := [], [], 0;
      new;
      WriteInt(id);
    }

    /** A packet to read from received bytes. */
    constructor FromBytes(data: seq<byte>)
      ensures State() == View(data, data, 0) && Snapshotted(State())
    {
      buffer, readable, readPos := [], [], 0;
      new;
      SetBytes(data);
    }

    /** Appends received bytes and re-takes the snapshot; the cursor stays. */
    method SetBytes(data: seq<byte>)
      modifies this`buffer, this`readable
      ensures buffer == old(buffer) + data && Snapshotted(State())
    {
      WriteBytes(data);
      readable := buffer;
    }

    /** Prepends the 4-byte count of the bytes written so far. */
    method WriteLength()
      requires |buffer| < 0x8000_0000
      modifies this`buffer
      ensures buffer == Frame(old(buffer))
    {
      buffer := EncodeInt(|buffer|) + buffer;
    }

    method InsertInt(value: int32)
      modifies this`buffer
      ensures buffer == EncodeInt(value) + old(buffer)
    {
      buffer := EncodeInt(value) + buffer;
    }

    method ToArray() returns (bytes: seq<byte>)
      modifies this`readable
      ensures bytes == buffer && Snapshotted(State())
    {
      readable := buffer;
      bytes := readable;
    }

    function Length(): (n: nat)
      reads this
      ensures n == |buffer|
    {
      |buffer|
    }

    function UnreadLength(): (n: int)
      reads this
      ensures n == Length() - readPos
    {
      |buffer| - readPos
    }

    /** Clears everything, or "unreads" the last int by moving the cursor back 4. */
    method Reset(shouldReset: bool := true)
      modifies this
      ensures shouldReset ==> State() == View([], [], 0)
      ensures !shouldReset ==> State() == old(State()).(pos := old(readPos) - 4)
    {
      if shouldReset {
        buffer, readable, readPos := [], [], 0;
      } else {
        readPos := readPos - 4;
      }
    }

    // -------------------------------------------------------------------------
    // Writes append and change nothing else

    method WriteByte(value: byte)
      modifies this`buffer
      ensures buffer == old(buffer) + [value]
    {
      buffer := buffer + [value];
    }

    method WriteBytes(value: seq<byte>)
      modifies this`buffer
      ensures buffer == old(buffer) + value
    {
      buffer := buffer + value;
    }

    method WriteShort(value: int16)
      modifies this`buffer
      ensures buffer == old(buffer) + EncodeShort(value)
    {
      buffer := buffer + EncodeShort(value);
    }

    method WriteInt(value: int32)
      modifies this`buffer
      ensures buffer == old(buffer) + EncodeInt(value)
    {
      buffer := buffer + EncodeInt(value);
    }

    method WriteLong(value: int64)
      modifies this`buffer
      ensures buffer == old(buffer) + EncodeLong(value)
    {
      buffer := buffer + EncodeLong(value);
    }

    method WriteFloat(value: Word)
      modifies this`buffer
      ensures buffer == old(buffer) + value
    {
      buffer := buffer + value;
    }

    method WriteBool(value: bool)
      modifies this`buffer
      ensures buffer == old(buffer) + EncodeBool(value)
    {
      buffer := buffer + EncodeBool(value);
    }

    method WriteString(value: string)
      requires StringFits(value)
      modifies this`buffer
      ensures buffer == old(buffer) + EncodeString(value)
    {
      WriteInt(|value|);
      buffer := buffer + EncodeAscii(value);
    }

    method WriteVector3(value: Vector3)
      modifies this`buffer
      ensures buffer == old(buffer) + EncodeVector3(value)
    {
      WriteFloat(value.x);
      WriteFloat(value.y);
      WriteFloat(value.z);
    }

    method WriteQuaternion(value: Quaternion)
      modifies this`buffer
      ensures buffer == old(buffer) + EncodeQuaternion(value)
    {
      WriteFloat(value.x);
      WriteFloat(value.y);
      WriteFloat(value.z);
      WriteFloat(value.w);
    }

    // -------------------------------------------------------------------------
    // Reads move only the cursor

    method ReadByte(move: bool := true) returns (r: Result<byte>)
      modifies this`readPos
      ensures Read(r, State()) == ByteAt(old(State()), move)
    {
      if |buffer| <= readPos { return Err(CouldNotRead(ByteKind)); }
      if readPos < 0 || readPos >= |readable| { return Err(OutOfRange(ByteKind)); }
      r := Ok(readable[readPos]);
      if move { readPos := readPos + 1; }
    }

    method ReadBytes(length: int32, move: bool := true) returns (r: Result<seq<byte>>)
      modifies this`readPos
      ensures Read(r, State()) == BytesAt(old(State()), length, move)
    {
      if |buffer| <= readPos { return Err(CouldNotRead(BytesKind)); }
      if readPos < 0 || length < 0 || readPos + length > |buffer| { return Err(OutOfRange(BytesKind)); }
      r := Ok(buffer[readPos..readPos + length]);
      if move { readPos := readPos + length; }
    }

    method ReadShort(move: bool := true) returns (r: Result<int16>)
      modifies this`readPos
      ensures Read(r, State()) == ShortAt(old(State()), move)
    {
      if |buffer| <= readPos { return Err(CouldNotRead(ShortKind)); }
      if readPos < 0 || readPos + 2 > |readable| { return Err(OutOfRange(ShortKind)); }
      r := Ok(DecodeShort(readable[readPos..readPos + 2]));
      if move { readPos := readPos + 2; }
    }

    method ReadInt(move: bool := true) returns (r: Result<int32>)
      modifies this`readPos
      ensures Read(r, State()) == IntAt(old(State()), move)
    {
      if |buffer| <= readPos { return Err(CouldNotRead(IntKind)); }
      if readPos < 0 || readPos + 4 > |readable| { return Err(OutOfRange(IntKind)); }
      r := Ok(DecodeInt(readable[readPos..readPos + 4]));
      if move { readPos := readPos + 4; }
    }

    method ReadLong(move: bool := true) returns (r: Result<int64>)
      modifies this`readPos
      ensures Read(r, State()) == LongAt(old(State()), move)
    {
      if |buffer| <= readPos { return Err(CouldNotRead(LongKind)); }
      if readPos < 0 || readPos + 8 > |readable| { return Err(OutOfRange(LongKind)); }
      r := Ok(DecodeLong(readable[readPos..readPos + 8]));
      if move { readPos := readPos + 8; }
    }

    method ReadFloat(move: bool := true) returns (r: Result<Word>)
      modifies this`readPos
      ensures Read(r, State()) == FloatAt(old(State()), move)
    {
      if |buffer| <= readPos { return Err(CouldNotRead(FloatKind)); }
      if readPos < 0 || readPos + 4 > |readable| { return Err(OutOfRange(FloatKind)); }
      r := Ok(readable[readPos..readPos + 4]);
      if move { readPos := readPos + 4; }
    }

    method ReadBool(move: bool := true) returns (r: Result<bool>)
      modifies this`readPos
      ensures Read(r, State()) == BoolAt(old(State()), move)
    {
      if |buffer| <= readPos { return Err(CouldNotRead(BoolKind)); }
      if readPos < 0 || readPos >= |readable| { return Err(OutOfRange(BoolKind)); }
      r := Ok(DecodeBool(readable[readPos]));
      if move { readPos := readPos + 1; }
    }

    method ReadString(move: bool := true) returns (r: Result<string>)
      modifies this`readPos
      ensures Read(r, State()) == StringAt(old(State()), move)
    {
      var count := ReadInt();
      if count.Err? { return Err(CouldNotRead(StringKind)); }
      var n := count.value;
      if n < 0 || n > MaxStringLength || readPos + n > |readable| { return Err(CouldNotRead(StringKind)); }
      r := Ok(DecodeAscii(readable[readPos..readPos + n]));
      if move && n > 0 { readPos := readPos + n; }
    }

    method ReadVector3(move: bool := true) returns (r: Result<Vector3>)
      modifies this`readPos
      ensures Read(r, State()) == Vector3At(old(State()), move)
    {
      var x := ReadFloat(move);
      if x.Err? { return Err(x.error); }
      var y := ReadFloat(move);
      if y.Err? { return Err(y.error); }
      var z := ReadFloat(move);
      if z.Err? { return Err(z.error); }
      r := Ok(Vector3(x.value, y.value, z.value));
    }

    method ReadQuaternion(move: bool := true) returns (r: Result<Quaternion>)
      modifies this`readPos
      ensures Read(r, State()) == QuaternionAt(old(State()), move)
    {
      var x := ReadFloat(move);
      if x.Err? { return Err(x.error); }
      var y := ReadFloat(move);
      if y.Err? { return Err(y.error); }
      var z := ReadFloat(move);
      if z.Err? { return Err(z.error); }
      var w := ReadFloat(move);
      if w.Err? { return Err(w.error); }
      r := Ok(Quaternion(x.value, y.value, z.value, w.value));
    }
  }
}
