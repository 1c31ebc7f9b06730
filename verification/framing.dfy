/** The stream framing `TCP.HandleData` and `TCP.ReceiveCallback` perform on a
    session's accumulation buffer, as functions of the bytes: which `[length]
    [length bytes]` frames are handed to dispatch, and whether the buffer is
    then cleared or the last length prefix is "unread" to wait for more. */
module Framing {
  import opened Wire
  import opened Packets

  /** `HandleData`'s result: `Clear` (true) empties the accumulation buffer,
      `Rewind` (false) moves the cursor back onto the last length prefix. */
  datatype Verdict = Clear | Rewind

  /** The frame bodies handed to dispatch, the verdict, and the cursor at return. */
  datatype Scan = Scan(frames: seq<seq<byte>>, verdict: Verdict, pos: nat)

  /** The length prefix that starts at `pos`. */
  function LengthAt(buf: seq<byte>, pos: nat): int32
    requires pos + 4 <= |buf|
  {
    DecodeInt(buf[pos..pos + 4])
  }

  /** The scan from `pos`, where a length prefix is expected. Fewer than 4
      unread bytes end it with `Clear`; so does a declared length <= 0, and a
      declared length of 1 whose byte has not arrived. A longer declared length
      than the bytes present ends it with `Rewind`, the cursor just past that
      prefix. Otherwise the frame body is taken and the scan goes on. */
  function ScanFrom(buf: seq<byte>, pos: nat): (s: Scan)
    requires pos <= |buf|
    ensures pos <= s.pos <= |buf|
    decreases |buf| - pos
  {
    if |buf| - pos < 4 then Scan([], Clear, pos)
    else
      var len := LengthAt(buf, pos);
      if len <= 0 then Scan([], Clear, pos + 4)
      else if len > |buf| - (pos + 4) then Scan([], if len <= 1 then Clear else Rewind, pos + 4)
      else
        var rest := ScanFrom(buf, pos + 4 + len);
        Scan([buf[pos + 4..pos + 4 + len]] + rest.frames, rest.verdict, rest.pos)
  }

  /** Fewer than 4 bytes left: nothing taken, clear. */
  lemma ScanEndsShort(buf: seq<byte>, at: nat)
    requires at <= |buf| && |buf| - at < 4
    ensures ScanFrom(buf, at) == Scan([], Clear, at)
  {
  }

  /** A length prefix that is not followed by a whole frame ends the scan
      just past it: clear for a length <= 1, rewind otherwise. */
  lemma ScanEndsAtLength(buf: seq<byte>, at: nat)
    requires at + 4 <= |buf| && !(0 < LengthAt(buf, at) <= |buf| - (at + 4))
    ensures ScanFrom(buf, at) == Scan([], if LengthAt(buf, at) <= 1 then Clear else Rewind, at + 4)
  {
  }

  /** The scan from `pos0` has produced `emitted` and goes on as the scan
      from `at`. */
  predicate ScannedUpTo(buf: seq<byte>, pos0: nat, emitted: seq<seq<byte>>, at: nat)
    requires pos0 <= |buf| && at <= |buf|
  {
    var rest := ScanFrom(buf, at);
    ScanFrom(buf, pos0) == Scan(emitted + rest.frames, rest.verdict, rest.pos)
  }

  lemma ScannedFromStart(buf: seq<byte>, pos0: nat)
    requires pos0 <= |buf|
    ensures ScannedUpTo(buf, pos0, [], pos0)
  {
    assert [] + ScanFrom(buf, pos0).frames == ScanFrom(buf, pos0).frames;
  }

  /** Taking the whole frame at `at` moves the scan on past it. */
  lemma ScannedStep(buf: seq<byte>, pos0: nat, emitted: seq<seq<byte>>, at: nat, frame: seq<byte>, next: nat)
    requires pos0 <= |buf| && at + 4 <= |buf| && 0 < LengthAt(buf, at) <= |buf| - (at + 4)
    requires next == at + 4 + LengthAt(buf, at) && frame == buf[at + 4..next]
    requires ScannedUpTo(buf, pos0, emitted, at)
    ensures ScannedUpTo(buf, pos0, emitted + [frame], next)
  {
    ScanStep(buf, at);
    var rest := ScanFrom(buf, next);
    assert emitted + ([frame] + rest.frames) == (emitted + [frame]) + rest.frames;
  }

  /** Fewer than four bytes left: the scan has produced `emitted` and clears. */
  lemma ScannedStopsShort(buf: seq<byte>, pos0: nat, emitted: seq<seq<byte>>, at: nat)
    requires pos0 <= |buf| && at <= |buf| && |buf| - at < 4 && ScannedUpTo(buf, pos0, emitted, at)
    ensures ScanFrom(buf, pos0) == Scan(emitted, Clear, at)
  {
    ScanEndsShort(buf, at);
    assert emitted + [] == emitted;
  }

  /** A length prefix with no whole frame behind it: the scan has produced
      `emitted` and ends just past the prefix. */
  lemma ScannedStopsAtLength(buf: seq<byte>, pos0: nat, emitted: seq<seq<byte>>, at: nat)
    requires pos0 <= |buf| && at + 4 <= |buf| && ScannedUpTo(buf, pos0, emitted, at)
    requires !(0 < LengthAt(buf, at) <= |buf| - (at + 4))
    ensures ScanFrom(buf, pos0) == Scan(emitted, if LengthAt(buf, at) <= 1 then Clear else Rewind, at + 4)
  {
    ScanEndsAtLength(buf, at);
    assert emitted + [] == emitted;
  }

  /** A rewind leaves the cursor just past a length prefix that declares more
      than one byte and more bytes than are left, so the next chunk re-reads it. */
  lemma {:induction false} RewindPointsAtPrefix(buf: seq<byte>, pos: nat)
    requires pos <= |buf|
    ensures var s := ScanFrom(buf, pos);
      s.verdict == Rewind ==>
        pos + 4 <= s.pos && 1 < LengthAt(buf, s.pos - 4) && |buf| - s.pos < LengthAt(buf, s.pos - 4)
    decreases |buf| - pos
  {
    if |buf| - pos >= 4 {
      var len := LengthAt(buf, pos);
      if 0 < len <= |buf| - (pos + 4) {
        RewindPointsAtPrefix(buf, pos + 4 + len);
      }
    }
  }

  /** Frame bodies that can be length-prefixed and dispatched. */
  predicate Dispatchable(fs: seq<seq<byte>>)
  {
    forall i :: 0 <= i < |fs| ==> 0 < |fs[i]| < 0x8000_0000
  }

  /** The bytes of a sequence of frames, back to back. */
  function Framed(fs: seq<seq<byte>>): (r: seq<byte>)
    requires Dispatchable(fs)
  {
    if fs == [] then [] else Frame(fs[0]) + Framed(fs[1..])
  }

  lemma FramedCons(f: seq<byte>, fs: seq<seq<byte>>)
    requires 0 < |f| < 0x8000_0000 && Dispatchable(fs)
    ensures Dispatchable([f] + fs) && Framed([f] + fs) == Frame(f) + Framed(fs)
  {
    assert ([f] + fs)[1..] == fs;
  }

  lemma SliceSplit(buf: seq<byte>, i: nat, j: nat, k: nat)
    requires i <= j <= k <= |buf|
    ensures buf[i..k] == buf[i..j] + buf[j..k]
  {
  }

  lemma SameSplit(a: seq<byte>, b: seq<byte>, c: seq<byte>, d: seq<byte>)
    requires a + b == c + d && |a| == |c|
    ensures a == c && b == d
  {
    assert a == (a + b)[..|a|] && c == (c + d)[..|c|];
    assert b == (a + b)[|a|..] && d == (c + d)[|c|..];
  }

  /** A positive declared length with its bytes all present: the scan takes
      exactly those bytes as one frame and goes on after them. */
  lemma ScanStep(buf: seq<byte>, pos: nat)
    requires pos + 4 <= |buf| && 0 < LengthAt(buf, pos) <= |buf| - (pos + 4)
    ensures var next := pos + 4 + LengthAt(buf, pos);
      var rest := ScanFrom(buf, next);
      ScanFrom(buf, pos) == Scan([buf[pos + 4..next]] + rest.frames, rest.verdict, rest.pos)
      && Frame(buf[pos + 4..next]) == buf[pos..next]
  {
    var next := pos + 4 + LengthAt(buf, pos);
    IntEncodingOnto(buf[pos..pos + 4]);
    SliceSplit(buf, pos, pos + 4, next);
  }

  /** One complete frame at `pos` is taken, and the scan goes on after it. */
  lemma ScanTakesFrame(buf: seq<byte>, pos: nat, f: seq<byte>)
    requires 0 < |f| < 0x8000_0000 && pos + 4 + |f| <= |buf|
    requires buf[pos..pos + 4 + |f|] == Frame(f)
    ensures var rest := ScanFrom(buf, pos + 4 + |f|);
      ScanFrom(buf, pos) == Scan([f] + rest.frames, rest.verdict, rest.pos)
  {
    assert buf[pos..pos + 4] == buf[pos..pos + 4 + |f|][..4] == EncodeInt(|f|);
    IntRoundTrip(|f|);
    assert buf[pos + 4..pos + 4 + |f|] == buf[pos..pos + 4 + |f|][4..] == f;
    ScanStep(buf, pos);
  }

  /** A complete frame in front of a scan that yields `more` first. */
  lemma TakeThenScan(buf: seq<byte>, pos: nat, f: seq<byte>, more: seq<seq<byte>>, rest: Scan)
    requires 0 < |f| < 0x8000_0000 && pos + 4 + |f| <= |buf|
    requires buf[pos..pos + 4 + |f|] == Frame(f)
    requires ScanFrom(buf, pos + 4 + |f|) == Scan(more + rest.frames, rest.verdict, rest.pos)
    ensures ScanFrom(buf, pos) == Scan(([f] + more) + rest.frames, rest.verdict, rest.pos)
  {
    ScanTakesFrame(buf, pos, f);
    assert [f] + (more + rest.frames) == ([f] + more) + rest.frames;
  }

  /** The cursor after the frames `fs`, laid out from `pos`. */
  function FramesEnd(pos: nat, fs: seq<seq<byte>>): (end: nat)
    ensures pos <= end
    decreases fs
  {
    if fs == [] then pos else FramesEnd(pos + 4 + |fs[0]|, fs[1..])
  }

  /** `buf` holds the frames `fs` back to back from `pos`. */
  predicate FramesAt(buf: seq<byte>, pos: nat, fs: seq<seq<byte>>)
    decreases fs
  {
    fs == [] ||
    (0 < |fs[0]| < 0x8000_0000 && pos + 4 + |fs[0]| <= |buf|
     && buf[pos..pos + 4 + |fs[0]|] == Frame(fs[0])
     && FramesAt(buf, pos + 4 + |fs[0]|, fs[1..]))
  }

  /** Every complete frame at the front is dispatched, once, in order, before
      whatever the rest of the buffer gives. */
  lemma {:induction false} ScanComplete(buf: seq<byte>, pos: nat, fs: seq<seq<byte>>)
    requires FramesAt(buf, pos, fs) && pos <= |buf|
    ensures FramesEnd(pos, fs) <= |buf|
    ensures var rest := ScanFrom(buf, FramesEnd(pos, fs));
      ScanFrom(buf, pos) == Scan(fs + rest.frames, rest.verdict, rest.pos)
    decreases fs
  {
    if fs == [] {
      assert fs + ScanFrom(buf, pos).frames == ScanFrom(buf, pos).frames;
    } else {
      var f, more := fs[0], fs[1..];
      var next := pos + 4 + |f|;
      var end := FramesEnd(pos, fs);
      assert end == FramesEnd(next, more);
      assert FramesAt(buf, next, more) && next <= |buf|;
      ScanComplete(buf, next, more);
      assert fs == [f] + more;
      TakeThenScan(buf, pos, f, more, ScanFrom(buf, end));
    }
  }

  /** The bytes `Framed(fs)` at `pos` are the frames `fs` laid out from `pos`. */
  lemma {:induction false} FramedIsFramesAt(buf: seq<byte>, pos: nat, fs: seq<seq<byte>>)
    requires Dispatchable(fs)
    requires pos + |Framed(fs)| <= |buf| && buf[pos..pos + |Framed(fs)|] == Framed(fs)
    ensures FramesAt(buf, pos, fs) && FramesEnd(pos, fs) == pos + |Framed(fs)|
    decreases fs
  {
    if fs != [] {
      var f, more := fs[0], fs[1..];
      var next := pos + 4 + |f|;
      var end := pos + |Framed(fs)|;
      assert Framed(fs) == Frame(f) + Framed(more);
      SliceSplit(buf, pos, next, end);
      SameSplit(buf[pos..next], buf[next..end], Frame(f), Framed(more));
      FramedIsFramesAt(buf, next, more);
    }
  }

  /** The converse: frames laid out from `pos` are the bytes `Framed(fs)` there. */
  lemma {:induction false} FramesAtIsFramed(buf: seq<byte>, pos: nat, fs: seq<seq<byte>>)
    requires FramesAt(buf, pos, fs) && pos <= |buf|
    ensures Dispatchable(fs) && FramesEnd(pos, fs) == pos + |Framed(fs)| <= |buf|
    ensures buf[pos..pos + |Framed(fs)|] == Framed(fs)
    decreases fs
  {
    if fs != [] {
      var f, more := fs[0], fs[1..];
      var next := pos + 4 + |f|;
      FramesAtIsFramed(buf, next, more);
      FramedCons(f, more);
      assert fs == [f] + more;
      SliceSplit(buf, pos, next, next + |Framed(more)|);
    }
  }

  lemma FramesAtCons(buf: seq<byte>, pos: nat, f: seq<byte>, more: seq<seq<byte>>)
    requires 0 < |f| < 0x8000_0000 && pos + 4 + |f| <= |buf|
    requires buf[pos..pos + 4 + |f|] == Frame(f) && FramesAt(buf, pos + 4 + |f|, more)
    ensures FramesAt(buf, pos, [f] + more)
    ensures FramesEnd(pos, [f] + more) == FramesEnd(pos + 4 + |f|, more)
  {
    var fs := [f] + more;
    assert fs[0] == f && fs[1..] == more;
  }

  /** Everything the scan dispatches was present, as complete frames back to
      back from `pos`; a rewind leaves the cursor just past the length prefix
      that follows them. */
  lemma {:induction false} ScanSound(buf: seq<byte>, pos: nat)
    requires pos <= |buf|
    ensures var s := ScanFrom(buf, pos);
      FramesAt(buf, pos, s.frames)
      && (s.verdict == Rewind ==> s.pos == FramesEnd(pos, s.frames) + 4)
    decreases |buf| - pos
  {
    if |buf| - pos >= 4 && 0 < LengthAt(buf, pos) <= |buf| - (pos + 4) {
      var next := pos + 4 + LengthAt(buf, pos);
      var f := buf[pos + 4..next];
      ScanStep(buf, pos);
      ScanSound(buf, next);
      FramesAtCons(buf, pos, f, ScanFrom(buf, next).frames);
    } else {
      assert ScanFrom(buf, pos).frames == [];
    }
  }

  /** The same, as bytes: what is dispatched is a prefix of the unread bytes,
      frame by frame. */
  lemma ScanDispatchesPresentFrames(buf: seq<byte>, pos: nat)
    requires pos <= |buf|
    ensures var s := ScanFrom(buf, pos);
      Dispatchable(s.frames) && pos + |Framed(s.frames)| <= |buf|
      && buf[pos..pos + |Framed(s.frames)|] == Framed(s.frames)
      && (s.verdict == Rewind ==> s.pos == pos + |Framed(s.frames)| + 4)
  {
    ScanSound(buf, pos);
    FramesAtIsFramed(buf, pos, ScanFrom(buf, pos).frames);
  }

  /** Fewer than 4 bytes after the frames: all frames dispatched, the
      trailing 0-3 bytes dropped with the buffer. */
  lemma ShortTailDropped(fs: seq<seq<byte>>, tail: seq<byte>)
    requires Dispatchable(fs) && |tail| < 4
    ensures ScanFrom(Framed(fs) + tail, 0) == Scan(fs, Clear, |Framed(fs)|)
  {
    var buf := Framed(fs) + tail;
    var k := |Framed(fs)|;
    assert buf[0..k] == Framed(fs);
    FramedIsFramesAt(buf, 0, fs);
    ScanComplete(buf, 0, fs);
    assert ScanFrom(buf, k) == Scan([], Clear, k);
    assert fs + [] == fs;
  }

  /** A declared length <= 0 after the frames: the frames before it are
      dispatched, nothing after it is, and the buffer is cleared. */
  lemma NonPositiveLengthClears(fs: seq<seq<byte>>, len: int32, rest: seq<byte>)
    requires Dispatchable(fs) && len <= 0
    ensures ScanFrom(Framed(fs) + EncodeInt(len) + rest, 0).frames == fs
    ensures ScanFrom(Framed(fs) + EncodeInt(len) + rest, 0).verdict == Clear
  {
    var buf := Framed(fs) + EncodeInt(len) + rest;
    var k := |Framed(fs)|;
    assert buf[0..k] == Framed(fs);
    FramedIsFramesAt(buf, 0, fs);
    ScanComplete(buf, 0, fs);
    assert buf[k..k + 4] == EncodeInt(len);
    IntRoundTrip(len);
  }

  /** A frame whose body has not fully arrived: the frames before it are
      dispatched and the cursor is left just past its length prefix, so the
      rewind by 4 lands on that prefix. A declared length of 1 is the
      exception: with its byte missing the buffer is cleared. */
  lemma PartialFrameRewinds(fs: seq<seq<byte>>, len: int32, partial: seq<byte>)
    requires Dispatchable(fs) && 0 < len && |partial| < len
    ensures var s := ScanFrom(Framed(fs) + EncodeInt(len) + partial, 0);
      s.frames == fs && s.pos == |Framed(fs)| + 4 && s.verdict == (if len == 1 then Clear else Rewind)
  {
    var buf := Framed(fs) + EncodeInt(len) + partial;
    var k := |Framed(fs)|;
    assert buf[0..k] == Framed(fs);
    FramedIsFramesAt(buf, 0, fs);
    ScanComplete(buf, 0, fs);
    assert buf[k..k + 4] == EncodeInt(len);
    IntRoundTrip(len);
  }

  // ---------------------------------------------------------------------------
  // One receive step of a session: append the chunk, scan from the cursor,
  // then clear or rewind.

  /** The accumulation buffer's bytes and its read cursor. */
  datatype Accumulator = Accumulator(buffer: seq<byte>, pos: nat)

  const Empty := Accumulator([], 0)

  predicate WellFormed(a: Accumulator)
  {
    a.pos <= |a.buffer|
  }

  /** `ReceiveCallback` for a chunk of one or more bytes: `HandleData`, then
      `Reset(verdict == Clear)`. */
  function Receive(a: Accumulator, chunk: seq<byte>): (r: (Accumulator, seq<seq<byte>>))
    requires WellFormed(a)
    ensures WellFormed(r.0)
  {
    var buf := a.buffer + chunk;
    var s := ScanFrom(buf, a.pos);
    (if s.verdict == Clear then Empty else Accumulator(buf, s.pos - 4), s.frames)
  }

  /** Chunks received one after another: the final accumulator and every frame
      dispatched, in order. */
  function Feed(a: Accumulator, chunks: seq<seq<byte>>): (r: (Accumulator, seq<seq<byte>>))
    requires WellFormed(a)
    ensures WellFormed(r.0)
    decreases |chunks|
  {
    if chunks == [] then (a, [])
    else
      var first := Receive(a, chunks[0]);
      var rest := Feed(first.0, chunks[1..]);
      (rest.0, first.1 + rest.1)
  }

  /** Several complete frames arriving in one chunk are all dispatched, in order. */
  lemma CoalescedFramesAllDispatched(fs: seq<seq<byte>>)
    requires Dispatchable(fs)
    ensures Receive(Empty, Framed(fs)) == (Empty, fs)
  {
    var buf := Empty.buffer + Framed(fs);
    assert buf == Framed(fs) + [];
    ShortTailDropped(fs, []);
  }

  /** A chunk of fewer than 4 bytes on an empty buffer is thrown away: a
      length prefix split across chunks is lost. */
  lemma ShortFirstChunkLost(chunk: seq<byte>)
    requires |chunk| < 4
    ensures Receive(Empty, chunk) == (Empty, [])
  {
  }

  /** A frame whose length prefix arrived whole but whose body is still
      incomplete is kept, with the cursor on its prefix (declared length > 1). */
  lemma {:induction false} IncompleteFrameKept(a: Accumulator, chunk: seq<byte>, f: seq<byte>, k: nat)
    requires WellFormed(a) && 1 < |f| < 0x8000_0000 && 4 <= k < 4 + |f|
    requires (a.buffer + chunk)[a.pos..] == Frame(f)[..k]
    ensures Receive(a, chunk) == (Accumulator(a.buffer + chunk, a.pos), [])
  {
    var buf := a.buffer + chunk;
    assert buf[a.pos..a.pos + 4] == buf[a.pos..][..4] == Frame(f)[..4] == EncodeInt(|f|);
    IntRoundTrip(|f|);
  }

  function Concat(chunks: seq<seq<byte>>): seq<byte>
  {
    if chunks == [] then [] else chunks[0] + Concat(chunks[1..])
  }

  /** What a read of one or more bytes can deliver. */
  predicate NonEmptyChunks(chunks: seq<seq<byte>>)
  {
    forall i :: 0 <= i < |chunks| ==> chunks[i] != []
  }

  /** The rest of a kept frame, in any number of chunks: nothing is dispatched
      until its last byte arrives, then the frame is, once, and the buffer is
      cleared. */
  lemma {:induction false} KeptFrameCompletes(a: Accumulator, chunks: seq<seq<byte>>, f: seq<byte>, k: nat)
    requires WellFormed(a) && 1 < |f| < 0x8000_0000 && 4 <= k < 4 + |f|
    requires a.buffer[a.pos..] == Frame(f)[..k]
    requires NonEmptyChunks(chunks) && Concat(chunks) == Frame(f)[k..]
    ensures Feed(a, chunks) == (Empty, [f])
    decreases chunks
  {
    assert chunks != [] by { assert Frame(f)[k..] != []; }
    var c, more := chunks[0], chunks[1..];
    assert Concat(chunks) == c + Concat(more);
    var k' := k + |c|;
    assert Frame(f)[k..] == c + Concat(more);
    assert k' <= 4 + |f|;
    var buf := a.buffer + c;
    assert buf[a.pos..] == a.buffer[a.pos..] + c;
    assert Frame(f)[..k'] == Frame(f)[..k] + c;
    assert NonEmptyChunks(more);
    if k' < 4 + |f| {
      IncompleteFrameKept(a, c, f, k');
      assert Concat(more) == Frame(f)[k'..];
      KeptFrameCompletes(Accumulator(buf, a.pos), more, f, k');
      assert [] + [f] == [f];
    } else {
      assert more == [];
      assert buf[a.pos..] == Frame(f);
      FrameThenNothing(buf, a.pos, f);
      assert Receive(a, c) == (Empty, [f]);
      assert Feed(Empty, more) == (Empty, []);
      assert [f] + [] == [f];
    }
  }

  /** A buffer that ends with one complete frame at `pos`: it is dispatched and
      the buffer is cleared. */
  lemma FrameThenNothing(buf: seq<byte>, pos: nat, f: seq<byte>)
    requires 0 < |f| < 0x8000_0000 && pos <= |buf| && buf[pos..] == Frame(f)
    ensures ScanFrom(buf, pos) == Scan([f], Clear, |buf|)
  {
    assert buf[pos..pos + 4 + |f|] == Frame(f);
    ScanTakesFrame(buf, pos, f);
  }

  /** One frame of two or more bytes delivered in any number of reads, the
      first carrying at least the whole length prefix, is dispatched exactly
      once and the buffer ends empty. */
  lemma ChunkedFrameDispatchedOnce(chunks: seq<seq<byte>>, f: seq<byte>)
    requires 1 < |f| < 0x8000_0000
    requires NonEmptyChunks(chunks) && chunks != [] && |chunks[0]| >= 4
    requires Concat(chunks) == Frame(f)
    ensures Feed(Empty, chunks) == (Empty, [f])
  {
    var c, more := chunks[0], chunks[1..];
    assert Concat(chunks) == c + Concat(more);
    assert Frame(f)[..|c|] == c;
    assert NonEmptyChunks(more);
    assert Empty.buffer + c == c;
    if |c| == 4 + |f| {
      assert more == [];
      FrameThenNothing(c, 0, f);
      assert Receive(Empty, c) == (Empty, [f]);
    } else {
      IncompleteFrameKept(Empty, c, f, |c|);
      assert Concat(more) == Frame(f)[|c|..];
      KeptFrameCompletes(Accumulator(c, 0), more, f, |c|);
      assert [] + [f] == [f];
    }
  }
}
