/**
  Framing of the websocket client: the header it writes and the frame parser it runs over its
  receive buffer (sections 5.2 and 5.3 of RFC 6455).
  */
module WebSocket {
  import opened Bytes

  const FIN_BIT: byte := 128
  const MASK_BIT: byte := 128
  const LENGTH_LARGE: byte := 126
  const LENGTH_HUGE: byte := 127
  const MAX_SMALL: nat := 125
  const MAX_LARGE: nat := 65535
  const MAX_HEADER_SIZE: nat := 10
  const TWO_64: nat := 0x1_0000_0000_0000_0000

  const OP_CONTINUATION: byte := 0
  const OP_TEXT: byte := 1
  const OP_BINARY: byte := 2
  const OP_CLOSE: byte := 8
  const OP_PING: byte := 9
  const OP_PONG: byte := 10

  predicate IsOpcode(op: byte) { op in {OP_CONTINUATION, OP_TEXT, OP_BINARY, OP_CLOSE, OP_PING, OP_PONG} }

  predicate CarriesPayload(op: byte) { op in {OP_CONTINUATION, OP_TEXT, OP_BINARY, OP_PING, OP_PONG} }

  // ---------------------------------------------------------------- header layout of section 5.2

  /** The payload length in its minimal form; `mask` is the mask bit or 0. */
  function LengthField(length: nat, mask: byte): (s: seq<byte>)
    requires mask == 0 || mask == MASK_BIT
    ensures 1 <= |s| <= 9
  {
    if length <= MAX_SMALL then [mask + length]
    else if length <= MAX_LARGE then [mask + LENGTH_LARGE] + Be(length, 2)
    else [mask + LENGTH_HUGE] + Be(length, 8)
  }

  /** What the client puts before its payload: FIN, opcode, mask bit, length, the zero mask key. */
  function ClientHeader(length: nat, op: byte): (s: seq<byte>)
    requires IsOpcode(op)
  {
    [FIN_BIT + op] + LengthField(length, MASK_BIT) + [0, 0, 0, 0]
  }

  /** n >> 8 * i */
  function ShiftBytes(n: nat, i: nat): nat {
    if i == 0 then n else ShiftBytes(n, i - 1) / 256
  }

  /** The 64-bit length, byte by byte from the top. */
  method PutLength64(outbuf: array<byte>, length: nat)
    requires outbuf.Length >= 10
    modifies outbuf
    ensures outbuf[2..10] == Be(length, 8)
    ensures forall k :: 0 <= k < outbuf.Length && !(2 <= k < 10) ==> outbuf[k] == old(outbuf[k])
  {
    var i, pos := 8, 2;
    while i > 0
      invariant 0 <= i <= 8 && pos == 10 - i
      invariant outbuf[2..pos] == Be(ShiftBytes(length, i), 8 - i)
      invariant outbuf[..2] == old(outbuf[..2]) && outbuf[10..] == old(outbuf[10..])
    {
      i := i - 1;
      ghost var before := outbuf[2..pos];
      outbuf[pos] := ShiftBytes(length, i) % 256;
      pos := pos + 1;
      assert outbuf[2..pos] == before + [ShiftBytes(length, i) % 256];
    }
  }

  /** The minimal length form, without the mask bit; the payload or the key starts at `pos`. */
  method PutLength(outbuf: array<byte>, length: nat) returns (pos: nat)
    requires outbuf.Length >= 1 + |LengthField(length, 0)|
    modifies outbuf
    ensures pos == 1 + |LengthField(length, 0)| && outbuf[1..pos] == LengthField(length, 0)
    ensures outbuf[0] == old(outbuf[0]) && forall k :: pos <= k < outbuf.Length ==> outbuf[k] == old(outbuf[k])
  {
    if length <= MAX_SMALL {
      outbuf[1] := length;
      pos := 2;
    } else if length <= MAX_LARGE {
      outbuf[1], outbuf[2], outbuf[3] := LENGTH_LARGE, length / 256 % 256, length % 256;
      pos := 4;
      assert Be(length, 2) == [length / 256 % 256, length % 256] by {
        assert Be(length / 256, 1) == [length / 256 % 256];
      }
    } else {
      outbuf[1] := LENGTH_HUGE;
      PutLength64(outbuf, length);
      pos := 10;
      assert outbuf[1..10] == [outbuf[1]] + outbuf[2..10];
    }
  }

  /** `fill_header`: writes the header into a caller's buffer and returns its length. */
  method FillHeader(outbuf: array<byte>, sendlength: nat, opcode: byte) returns (pos: nat)
    requires IsOpcode(opcode) && sendlength < TWO_64
    requires outbuf.Length >= |ClientHeader(sendlength, opcode)|
    modifies outbuf
    ensures pos == |ClientHeader(sendlength, opcode)| && outbuf[..pos] == ClientHeader(sendlength, opcode)
    ensures forall k :: pos <= k < outbuf.Length ==> outbuf[k] == old(outbuf[k])
  {
    outbuf[0] := FIN_BIT + opcode;
    pos := PutLength(outbuf, sendlength);
    ghost var field := LengthField(sendlength, 0);
    assert outbuf[1] == field[0] && outbuf[1..pos][1..] == field[1..];
    outbuf[1] := outbuf[1] + MASK_BIT;
    ghost var masked := LengthField(sendlength, MASK_BIT);
    assert outbuf[1..pos] == masked;
    hide LengthField;
    outbuf[pos], outbuf[pos + 1], outbuf[pos + 2], outbuf[pos + 3] := 0, 0, 0, 0;
    assert outbuf[..pos] == [FIN_BIT + opcode] + masked by {
      assert outbuf[0] == FIN_BIT + opcode && outbuf[1..pos] == masked;
    }
    pos := pos + 4;
    assert outbuf[pos - 4..pos] == [0, 0, 0, 0];
    assert outbuf[..pos] == outbuf[..pos - 4] + outbuf[pos - 4..pos];
  }

  /** The header buffer the callers declare holds every header but the 64-bit form. */
  lemma {:induction false} HeaderFits(length: nat, op: byte)
    requires IsOpcode(op)
    ensures |ClientHeader(length, op)| <= MAX_HEADER_SIZE <==> length <= MAX_LARGE
  {
  }

  /** The mask bit and the zero key are all that masking adds: any payload XOR 0 is itself. */
  lemma {:induction false} MinimalForm(length: nat, op: byte)
    requires IsOpcode(op) && length < 0x1_0000_0000_0000_0000
    ensures var h := ClientHeader(length, op);
            && h[0] == 128 + op && h[1] >= 128
            && h[|h| - 4..] == [0, 0, 0, 0]
            && |h| == (if length < 126 then 6 else if length < 65536 then 8 else 14)
            && (length < 126 ==> h[1] - 128 == length)
            && (126 <= length < 65536 ==> h[1] - 128 == 126 && FromBe(h[2..4]) == length)
            && (65536 <= length ==> h[1] - 128 == 127 && FromBe(h[2..10]) == length)
  {
    var h := ClientHeader(length, op);
    assert Pow256(2) == 65536 && Pow256(8) == TWO_64 by { Powers(); }
    if 126 <= length < 65536 {
      FromBeOfBe(length, 2);
      assert h[2..4] == Be(length, 2);
    } else if 65536 <= length {
      FromBeOfBe(length, 8);
      assert h[2..10] == Be(length, 8);
    }
  }

  // ---------------------------------------------------------------- one frame off the buffer

  datatype Frame = Frame(op: byte, payload: seq<byte>)

  /**
    What `parseheader` finds at the head of the buffer: a masked data frame is neither consumed nor
    refused, and a frame is given with the number of bytes that are erased with it.
    */
  datatype Parse = NeedMore | Parsed(frame: Frame, size: nat) | Masked | Close(code: nat) | BadOpcode {
    predicate Consumes() { Parsed? && size > 0 }
  }

  /** The payload's offset and length, if the header is complete. */
  function Extent(data: seq<byte>): (e: Option<(nat, nat)>)
    requires |data| >= 4 && data[1] < 128
    ensures e.Some? ==> e.value.0 <= |data|
  {
    if data[1] == LENGTH_LARGE then
      if |data| < 8 then None else Some((4, FromBe(data[2..4])))
    else if data[1] == LENGTH_HUGE then
      if |data| < 10 then None else Some((10, FromBe(data[2..10])))
    else Some((2, data[1]))
  }

  /** std::string::substr; no string is long enough for an end that wraps around. */
  function Substr(data: seq<byte>, start: nat, length: nat): seq<byte>
    requires start <= |data| && (start + length < TWO_64 ==> start + length <= |data|)
  {
    if start + length < TWO_64 then data[start..start + length] else data[start..]
  }

  /** The end of the frame is computed in a uint64_t, for the length test and for the erasure. */
  function FrameEnd(start: nat, length: nat): (end: nat)
    ensures start + length < TWO_64 ==> end == start + length
  {
    (start + length) % TWO_64
  }

  function ParseFrame(data: seq<byte>): (p: Parse)
    ensures p.Parsed? ==> p.size <= |data|
  {
    if |data| < 4 then NeedMore else
    var op: byte := data[0] % 128;
    if CarriesPayload(op) then
      if data[1] >= MASK_BIT then Masked else
      var extent := Extent(data);
      if extent.None? then NeedMore else
      var (start, length) := extent.value;
      var end := FrameEnd(start, length);
      if |data| < end then NeedMore
      else Parsed(Frame(op, Substr(data, start, length)), end)
    else if op == OP_CLOSE then Close(FromBe(data[2..4]))
    else BadOpcode
  }

  /** What the head of the buffer is, by its bytes (section 5.2 of RFC 6455): the heads without a frame, ... */
  lemma {:induction false} HeadWithoutFrame(data: seq<byte>)
    ensures |data| < 4 ==> ParseFrame(data) == NeedMore
    ensures |data| >= 4 && data[0] in {8, 136} ==>
              var hi: int := data[2]; ParseFrame(data) == Close(256 * hi + data[3])
    ensures |data| >= 4 && data[0] !in {0, 1, 2, 8, 9, 10, 128, 129, 130, 136, 137, 138} ==>
              ParseFrame(data) == BadOpcode
    ensures |data| >= 4 && IsDataByte(data[0]) && data[1] >= 128 ==> ParseFrame(data) == Masked
  {
    if |data| >= 4 {
      PairIs(data[2..4]);
      ByteIs(data[0]);
    }
  }

  /** The first byte of a data, ping or pong frame, with the FIN bit or without. */
  predicate IsDataByte(b: byte) { b in {0, 1, 2, 9, 10, 128, 129, 130, 137, 138} }

  lemma {:induction false} ByteIs(b: byte)
    ensures CarriesPayload(b % 128) <==> IsDataByte(b)
    ensures b % 128 == OP_CLOSE <==> b in {8, 136}
  {
  }

  lemma {:induction false} PairIs(s: seq<byte>)
    requires |s| == 2
    ensures var hi: int := s[0]; FromBe(s) == 256 * hi + s[1]
  {
    assert s[..1] == [s[0]];
    assert FromBe(s[..1]) == s[0] by { FromBeAppend([], s[0]); }
  }

  /** ... a short frame, ... */
  lemma {:induction false} HeadOfSmall(data: seq<byte>)
    requires |data| >= 4 && IsDataByte(data[0]) && data[1] < 126
    ensures var end: nat := 2 + data[1];
            ParseFrame(data) == if |data| < end then NeedMore
                                else Parsed(Frame(data[0] % 128, data[2..end]), end)
  {
    hide CarriesPayload, IsDataByte;
    ByteIs(data[0]);
  }

  /** ... one with a length of two bytes, which waits for eight bytes in any case, ... */
  lemma {:induction false} HeadOfLarge(data: seq<byte>)
    requires |data| >= 4 && IsDataByte(data[0]) && data[1] == 126
    ensures var hi: int := data[2];
            var end: nat := 4 + 256 * hi + data[3];
            ParseFrame(data) == if |data| < 8 || |data| < end then NeedMore
                                else Parsed(Frame(data[0] % 128, data[4..end]), end)
  {
    hide CarriesPayload, IsDataByte;
    ByteIs(data[0]);
    PairIs(data[2..4]);
    assert FrameEnd(4, FromBe(data[2..4])) == 4 + FromBe(data[2..4]);
  }

  /** ... and one with a length of eight; if the end of the frame wraps around, `WrappedFrame` says what it is. */
  lemma {:induction false} HeadOfHuge(data: seq<byte>)
    requires |data| >= 4 && IsDataByte(data[0]) && data[1] == 127
    ensures |data| < 10 ==> ParseFrame(data) == NeedMore
    ensures |data| >= 10 ==>
              var end := 10 + Word(data[2], data[3], data[4], data[5], data[6], data[7], data[8], data[9]);
              end < 0x1_0000_0000_0000_0000 ==>
                ParseFrame(data) == if |data| < end then NeedMore
                                    else Parsed(Frame(data[0] % 128, data[10..end]), end)
  {
    hide CarriesPayload, IsDataByte, Word;
    ByteIs(data[0]);
    if |data| >= 10 {
      WordIs(data);
      assert 10 + FromBe(data[2..10]) < TWO_64 ==>
          FrameEnd(10, FromBe(data[2..10])) == 10 + FromBe(data[2..10]);
    }
  }

  /** Eight bytes as a number. */
  function Word(a: nat, b: nat, c: nat, d: nat, e: nat, f: nat, g: nat, h: nat): nat {
    0x100_0000_0000_0000 * a + 0x1_0000_0000_0000 * b + 0x100_0000_0000 * c + 0x1_0000_0000 * d
    + 0x100_0000 * e + 0x1_0000 * f + 0x100 * g + h
  }

  lemma {:induction false} WordIs(d: seq<byte>)
    requires |d| >= 10
    ensures FromBe(d[2..10]) == Word(d[2], d[3], d[4], d[5], d[6], d[7], d[8], d[9])
  {
    FromBeStep(d, 2, 3); FromBeStep(d, 2, 4); FromBeStep(d, 2, 5); FromBeStep(d, 2, 6);
    FromBeStep(d, 2, 7); FromBeStep(d, 2, 8); FromBeStep(d, 2, 9); FromBeStep(d, 2, 10);
    assert FromBe(d[2..2]) == 0;
    hide FromBe;
  }

  lemma {:induction false} FromBeStep(d: seq<byte>, i: nat, j: nat)
    requires i < j <= |d|
    ensures FromBe(d[i..j]) == 256 * FromBe(d[i..j - 1]) + d[j - 1]
  {
    assert d[i..j][..j - i - 1] == d[i..j - 1];
  }

  /** A complete unmasked header with a 64-bit length that makes the end of the frame wrap around. */
  predicate WrapsHead(data: seq<byte>) {
    |data| >= 10 && CarriesPayload(data[0] % 128) && data[1] == LENGTH_HUGE && FromBe(data[2..10]) >= TWO_64 - 10
  }

  /** ... to 0, so that nothing would be erased. */
  predicate StuckHead(data: seq<byte>) {
    WrapsHead(data) && FromBe(data[2..10]) == TWO_64 - 10
  }

  /** A data, ping or pong frame whose mask bit is set. */
  predicate MaskedHead(data: seq<byte>) {
    |data| >= 4 && CarriesPayload(data[0] % 128) && data[1] >= MASK_BIT
  }

  /** At such a header everything buffered is the payload, and at most nine bytes are erased. */
  lemma {:induction false} WrappedFrame(data: seq<byte>)
    requires WrapsHead(data)
    ensures ParseFrame(data) == Parsed(Frame(data[0] % 128, data[10..]), FromBe(data[2..10]) - (TWO_64 - 10))
    ensures ParseFrame(data).size <= 9
  {
    Powers();
    FromBeRange(data[2..10]);
  }

  /** Any other frame is its header and its payload, which is at least two bytes. */
  lemma {:induction false} PlainFrame(data: seq<byte>)
    requires ParseFrame(data).Parsed? && !WrapsHead(data)
    ensures Extent(data).Some?
    ensures var (start, length) := Extent(data).value;
            && 2 <= start + length <= |data| && start + length < TWO_64
            && ParseFrame(data) == Parsed(Frame(data[0] % 128, data[start..start + length]), start + length)
  {
    Powers();
    FromBeRange(data[2..4]);
  }

  lemma {:induction false} ExtentStable(a: seq<byte>, b: seq<byte>)
    requires |a| >= 4 && a[1] < 128 && Extent(a).Some?
    ensures (a + b)[1] == a[1] && Extent(a + b) == Extent(a)
  {
    assert (a + b)[2..4] == a[2..4];
    if |a| >= 10 { assert (a + b)[2..10] == a[2..10]; }
  }

  /** Whatever was decided stays decided when more bytes arrive, but a wrapped frame's payload grows by them. */
  lemma {:induction false} ParseStable(a: seq<byte>, b: seq<byte>)
    requires !ParseFrame(a).NeedMore?
    ensures WrapsHead(a + b) == WrapsHead(a)
    ensures !WrapsHead(a) ==> ParseFrame(a + b) == ParseFrame(a)
    ensures WrapsHead(a) ==>
              var p := ParseFrame(a);
              p.Parsed? && ParseFrame(a + b) == Parsed(Frame(p.frame.op, p.frame.payload + b), p.size)
  {
    var d := a + b;
    assert d[0] == a[0] && d[1] == a[1] && d[2..4] == a[2..4];
    if CarriesPayload(a[0] % 128) && a[1] < 128 {
      ExtentStable(a, b);
      if |a| >= 10 { assert d[2..10] == a[2..10]; }
      if WrapsHead(a) {
        WrappedFrame(a);
        WrappedFrame(d);
      } else {
        PlainFrame(a);
        var (start, length) := Extent(a).value;
        assert d[start..start + length] == a[start..start + length];
      }
    }
  }

  // ---------------------------------------------------------------- draining the buffer

  /**
    The frames delivered from a buffer, what stays in it, and what stands there: no frame, or one
    that would be delivered without anything being erased.
    */
  datatype Drained = Drained(frames: seq<Frame>, rest: seq<byte>, end: Parse) {
    /** Every further pass would ask for another. */
    predicate Hangs() { end.Masked? || end.Parsed? }
  }

  function Drain(data: seq<byte>): (r: Drained)
    ensures r.end == ParseFrame(r.rest) && !r.end.Consumes()
    decreases |data|
  {
    var p := ParseFrame(data);
    if p.Consumes() then
      var r := Drain(data[p.size..]);
      Drained([p.frame] + r.frames, r.rest, r.end)
    else Drained([], data, p)
  }

  /** Frames delivered earlier. */
  function After(frames: seq<Frame>, d: Drained): Drained { Drained(frames + d.frames, d.rest, d.end) }

  lemma {:induction false} AfterAfter(a: seq<Frame>, b: seq<Frame>, d: Drained)
    ensures After(a, After(b, d)) == After(a + b, d)
    ensures After([], d) == d
  {
    assert a + (b + d.frames) == (a + b) + d.frames;
    assert [] + d.frames == d.frames;
  }

  /** Draining comes to a frame whose end wraps around, whether it can be erased or is delivered for ever. */
  predicate Reaches(data: seq<byte>)
    decreases |data|
  {
    var p := ParseFrame(data);
    WrapsHead(data) || (p.Consumes() && Reaches(data[p.size..]))
  }

  lemma {:induction false} ReachStays(a: seq<byte>, b: seq<byte>)
    requires Reaches(a)
    ensures Reaches(a + b)
    decreases |a|
  {
    if WrapsHead(a) { WrappedFrame(a); }
    ParseStable(a, b);
    var p := ParseFrame(a);
    if !WrapsHead(a) {
      assert (a + b)[p.size..] == a[p.size..] + b;
      ReachStays(a[p.size..], b);
    }
  }

  /** The connection after the next read: bytes that arrive behind a read that never returns are not looked at. */
  function Next(d: Drained, bytes: seq<byte>): Drained {
    if d.Hangs() then d.(rest := d.rest + bytes) else After(d.frames, Drain(d.rest + bytes))
  }

  /**
    Draining what arrived, and then the rest together with the next bytes, comes to the same as
    draining all at once exactly if no frame with a wrapped end was come to before them.
    */
  lemma {:induction false} DrainSplitIff(a: seq<byte>, b: seq<byte>)
    ensures Drain(a + b) == Next(Drain(a), b) <==> b == [] || !Reaches(a)
    decreases |a|
  {
    var p := ParseFrame(a);
    if b == [] {
      assert a + b == a;
      DrainedStays(a);
    } else if p.Consumes() {
      ParseStable(a, b);
      var tail := a[p.size..];
      assert (a + b)[p.size..] == tail + b;
      DrainSplitIff(tail, b);
      NextAfter(p.frame, Drain(tail), b);
      var q := ParseFrame(a + b);
      DrainedAfter(q.frame, Drain(tail + b), p.frame, Next(Drain(tail), b));
      assert q.frame == p.frame <==> !WrapsHead(a) by {
        if WrapsHead(a) { assert |q.frame.payload| == |p.frame.payload| + |b|; }
      }
    } else {
      SplitAtRest(a, b);
    }
  }

  /** Draining what is left of a drain. */
  lemma {:induction false} DrainedStays(a: seq<byte>)
    ensures Next(Drain(a), []) == Drain(a)
  {
    var d := Drain(a);
    assert d.rest + [] == d.rest && d.frames + [] == d.frames;
  }

  lemma {:induction false} NextAfter(f: Frame, d: Drained, b: seq<byte>)
    ensures Next(After([f], d), b) == After([f], Next(d, b))
  {
    AfterAfter([f], d.frames, Drain(d.rest + b));
  }

  /** No frame can be erased: more bytes make a difference only to the payload of a stuck one. */
  lemma {:induction false} SplitAtRest(a: seq<byte>, b: seq<byte>)
    requires !ParseFrame(a).Consumes() && b != []
    ensures Drain(a + b) == Next(Drain(a), b) <==> !WrapsHead(a)
    ensures Reaches(a) <==> WrapsHead(a)
  {
    var p, q := ParseFrame(a), ParseFrame(a + b);
    if WrapsHead(a) {
      WrappedFrame(a);
      ParseStable(a, b);
      assert |q.frame.payload| == |p.frame.payload| + |b|;
    } else if p.NeedMore? {
      AfterAfter([], [], Drain(a + b));
    } else {
      ParseStable(a, b);
      if p.Parsed? { PlainFrame(a); }
      assert Drain(a + b) == Drained([], a + b, p);
    }
  }

  lemma {:induction false} DrainedAfter(f: Frame, d: Drained, g: Frame, e: Drained)
    ensures After([f], d) == After([g], e) <==> f == g && d == e
  {
    var x, y := [f] + d.frames, [g] + e.frames;
    if x == y { assert x[0] == y[0] && x[1..] == y[1..] && x[1..] == d.frames && y[1..] == e.frames; }
  }

  // ---------------------------------------------------------------- when the loop ends

  /** What some passes of the loop leave behind; `running` if the last one asked for another. */
  datatype Spun = Spun(frames: seq<Frame>, rest: seq<byte>, running: bool)

  function Spin(data: seq<byte>, passes: nat): Spun
    decreases passes
  {
    if passes == 0 then Spun([], data, true) else
    var p := ParseFrame(data);
    if p.Parsed? then
      var s := Spin(data[p.size..], passes - 1);
      Spun([p.frame] + s.frames, s.rest, s.running)
    else if p.Masked? then Spin(data, passes - 1)
    else Spun([], data, false)
  }

  /** Each of that many passes asks for another exactly as long as frames last, or for ever. */
  lemma {:induction false} RunningIff(data: seq<byte>, passes: nat)
    ensures Spin(data, passes).running <==> Drain(data).Hangs() || passes <= |Drain(data).frames|
    decreases passes
  {
    hide ParseFrame;
    if passes > 0 {
      var p := ParseFrame(data);
      if p.Parsed? {
        assert data[0..] == data;
        RunningIff(data[p.size..], passes - 1);
      } else if p.Masked? {
        RunningIff(data, passes - 1);
      }
    }
  }

  /** The frame at which draining stopped, once for each further pass. */
  function Again(end: Parse, passes: nat): seq<Frame> {
    if end.Parsed? then seq(passes, _ => end.frame) else []
  }

  /**
    As many passes as there are frames deliver them all; later ones erase nothing, and deliver only a
    stuck frame again.
    */
  lemma {:induction false} SpunIsDrained(data: seq<byte>, passes: nat)
    requires passes >= |Drain(data).frames|
    ensures var s, r := Spin(data, passes), Drain(data);
            s.frames == r.frames + Again(r.end, passes - |r.frames|) && s.rest == r.rest
    decreases passes
  {
    hide ParseFrame;
    var p, r := ParseFrame(data), Drain(data);
    if p.Consumes() {
      var q := Drain(data[p.size..]);
      SpunIsDrained(data[p.size..], passes - 1);
      assert [p.frame] + (q.frames + Again(r.end, passes - |r.frames|)) == r.frames + Again(r.end, passes - |r.frames|);
    } else {
      AtRest(data, passes);
      assert [] + Again(p, passes) == Again(p, passes);
    }
  }

  /** Passes at a head that erases nothing. */
  lemma {:induction false} AtRest(data: seq<byte>, passes: nat)
    requires !ParseFrame(data).Consumes()
    ensures Spin(data, passes).frames == Again(ParseFrame(data), passes) && Spin(data, passes).rest == data
    decreases passes
  {
    hide ParseFrame;
    var p := ParseFrame(data);
    if passes > 0 && (p.Parsed? || p.Masked?) {
      assert data[0..] == data;
      AtRest(data, passes - 1);
      if p.Parsed? { assert [p.frame] + Again(p, passes - 1) == Again(p, passes); }
    }
  }

  /** Where draining stops, the two heads that make a pass ask for another for ever. */
  lemma {:induction false} HangsIff(data: seq<byte>)
    ensures Drain(data).Hangs() <==> MaskedHead(Drain(data).rest) || StuckHead(Drain(data).rest)
  {
    var rest := Drain(data).rest;
    if ParseFrame(rest).Parsed? && !WrapsHead(rest) { PlainFrame(rest); }
    if WrapsHead(rest) { WrappedFrame(rest); }
  }

  /**
    The loop never ends exactly if draining stops at a masked frame of a kind that carries data, or at
    a 64-bit length of 2^64 - 10, whose frame is delivered again and again.
    */
  lemma {:induction false} NeverEndsIff(data: seq<byte>)
    ensures (forall passes: nat :: Spin(data, passes).running)
            <==> MaskedHead(Drain(data).rest) || StuckHead(Drain(data).rest)
  {
    HangsIff(data);
    var enough := |Drain(data).frames| + 1;
    RunningIff(data, enough);
    if Drain(data).Hangs() {
      forall passes: nat ensures Spin(data, passes).running { RunningIff(data, passes); }
    } else {
      assert !Spin(data, enough).running;
    }
  }

  /** The shortest input of the first kind: an empty masked text frame, without its key. */
  lemma {:induction false} MaskedFrameHangs(passes: nat)
    ensures Spin([129, 128, 0, 0], passes) == Spun([], [129, 128, 0, 0], true)
  {
    var data: seq<byte> := [129, 128, 0, 0];
    assert ParseFrame(data).Masked?;
    assert Drain(data) == Drained([], data, Masked);
    RunningIff(data, passes);
    SpunIsDrained(data, passes);
  }

  const STUCK: seq<byte> := [129, 127, 255, 255, 255, 255, 255, 255, 255, 246]

  /** And of the second: every pass delivers an empty text frame. */
  lemma {:induction false} StuckFrameHangs(passes: nat)
    ensures Spin(STUCK, passes) == Spun(seq(passes, _ => Frame(OP_TEXT, [])), STUCK, true)
  {
    StuckIsStuck([]);
    assert STUCK + [] == STUCK;
    assert Drain(STUCK) == Drained([], STUCK, Parsed(Frame(OP_TEXT, []), 0));
    RunningIff(STUCK, passes);
    SpunIsDrained(STUCK, passes);
  }

  lemma {:induction false} StuckIsStuck(more: seq<byte>)
    ensures StuckHead(STUCK + more) && ParseFrame(STUCK + more) == Parsed(Frame(OP_TEXT, more), 0)
  {
    var length: seq<byte> := [255, 255, 255, 255, 255, 255, 255, 246];
    var data := STUCK + more;
    assert STUCK == [129, 127] + length;
    StuckLength(length);
    assert data[2..10] == length && data[10..] == more;
    WrappedFrame(data);
  }

  lemma {:induction false} StuckLength(length: seq<byte>)
    requires length == [255, 255, 255, 255, 255, 255, 255, 246]
    ensures FromBe(length) == TWO_64 - 10
  {
    var s: seq<byte> := [];
    for i := 0 to 7
      invariant |s| == i && s == length[..i] && FromBe(s) == Pow256(i) - 1
    {
      FromBeAppend(s, 255);
      s := s + [255];
    }
    FromBeAppend(s, 246);
    Powers();
    assert length == s + [246];
  }

  /** How much is consumed, and whether that ends, never depends on how the bytes are cut. */
  lemma {:induction false} EveryReadReturns(a: seq<byte>, b: seq<byte>)
    ensures var whole, last := Drain(a + b), Drain(Drain(a).rest + b);
            && |whole.frames| == |Drain(a).frames| + |last.frames|
            && whole.rest == last.rest && whole.Hangs() == last.Hangs()
    ensures Drain(a).Hangs() ==> Drain(a + b).Hangs()
    decreases |a|
  {
    var p := ParseFrame(a);
    if p.Consumes() {
      ParseStable(a, b);
      assert (a + b)[p.size..] == a[p.size..] + b;
      EveryReadReturns(a[p.size..], b);
    } else if !p.NeedMore? {
      ParseStable(a, b);
    }
  }

  // ---------------------------------------------------------------- streams cut into reads

  /** The connection after further reads, each drained as far as possible, until one does not return. */
  function FeedAll(d: Drained, packets: seq<seq<byte>>): (r: Drained)
    decreases |packets|
  {
    if packets == [] then d else FeedAll(Next(d, packets[0]), packets[1..])
  }

  ghost predicate SameAsWhole(first: seq<byte>, packets: seq<seq<byte>>) {
    Drain(first + Concat(packets)) == FeedAll(Drain(first), packets)
  }

  /** No read but the last one with any bytes comes to a frame whose end wraps around. */
  predicate CutWell(first: seq<byte>, packets: seq<seq<byte>>)
    decreases |packets|
  {
    Concat(packets) == [] || (packets != [] && !Reaches(first) && CutWell(first + packets[0], packets[1..]))
  }

  /**
    A stream cut into reads delivers the frames, once or for ever, and leaves the bytes of the whole
    exactly if it is cut well.
    */
  lemma {:induction false} CutIff(first: seq<byte>, packets: seq<seq<byte>>)
    ensures SameAsWhole(first, packets) <==> CutWell(first, packets)
    decreases |packets|
  {
    ConcatCons(first, packets);
    if packets != [] {
      CutIff(first + packets[0], packets[1..]);
      if Reaches(first) && Concat(packets) != [] {
        ReachDiffers(first, Concat(packets));
        FeedKeeps(Drain(first), packets);
      } else {
        DrainSplitIff(first, packets[0]);
        assert packets[0] != [] ==> Concat(packets) != [];
      }
    }
  }

  /** What was delivered stays delivered, and a client that hangs goes on with the frame it hangs at. */
  lemma {:induction false} FeedKeeps(d: Drained, packets: seq<seq<byte>>)
    ensures d.frames <= FeedAll(d, packets).frames
    ensures d.Hangs() ==> FeedAll(d, packets).end == d.end
    decreases |packets|
  {
    if packets != [] { FeedKeeps(Next(d, packets[0]), packets[1..]); }
  }

  /** The frame with a wrapped end was delivered with too little payload. */
  lemma {:induction false} ReachDiffers(a: seq<byte>, b: seq<byte>)
    requires Reaches(a) && b != []
    ensures !(Drain(a).frames <= Drain(a + b).frames) || (Drain(a).Hangs() && Drain(a + b).end != Drain(a).end)
    decreases |a|
  {
    if WrapsHead(a) { WrappedFrame(a); }
    ParseStable(a, b);
    var p, q := ParseFrame(a), ParseFrame(a + b);
    assert (a + b)[p.size..] == a[p.size..] + b;
    var x, y := Drain(a).frames, Drain(a + b).frames;
    if WrapsHead(a) {
      assert |q.frame.payload| == |p.frame.payload| + |b|;
      if p.Consumes() { assert x[0] == p.frame && y[0] == q.frame; }
    } else {
      ReachDiffers(a[p.size..], b);
      assert x[1..] == Drain(a[p.size..]).frames && y[1..] == Drain(a[p.size..] + b).frames;
      PrefixTail(x, y);
    }
  }

  lemma {:induction false} PrefixTail<T>(x: seq<T>, y: seq<T>)
    requires x != [] && y != []
    ensures x <= y ==> x[1..] <= y[1..]
  {
  }

  ghost predicate EveryCutSame(stream: seq<byte>) {
    forall first: seq<byte>, packets: seq<seq<byte>> ::
      first + Concat(packets) == stream ==> SameAsWhole(first, packets)
  }

  /**
    Split independence: every cutting of a stream into reads delivers the frames, and leaves the bytes,
    of the whole, if and only if no frame with a wrapped end is come to before the last byte.
    */
  lemma {:induction false} SplitIndependentIff(stream: seq<byte>)
    ensures EveryCutSame(stream) <==> stream == [] || !Reaches(stream[..|stream| - 1])
  {
    if stream != [] && Reaches(stream[..|stream| - 1]) {
      var front, last := stream[..|stream| - 1], stream[|stream| - 1..];
      ConcatCons(front, [last]);
      assert front + Concat([last]) == (front + last) + Concat<byte>([]);
      assert front + Concat([last]) == stream;
      CutIff(front, [last]);
    } else {
      forall first: seq<byte>, packets: seq<seq<byte>> | first + Concat(packets) == stream
        ensures SameAsWhole(first, packets)
      {
        if stream == [] {
          assert Concat(packets) == [];
        } else {
          UnreachedCutsWell(first, packets);
        }
        CutIff(first, packets);
      }
    }
  }

  lemma {:induction false} UnreachedCutsWell(first: seq<byte>, packets: seq<seq<byte>>)
    requires var stream := first + Concat(packets); stream != [] && !Reaches(stream[..|stream| - 1])
    ensures CutWell(first, packets)
    decreases |packets|
  {
    if Concat(packets) != [] {
      var stream := first + Concat(packets);
      var missing := stream[|first|..|stream| - 1];
      assert first + missing == stream[..|stream| - 1];
      if Reaches(first) { ReachStays(first, missing); }
      ConcatCons(first, packets);
      UnreachedCutsWell(first + packets[0], packets[1..]);
    }
  }

  /** One byte behind the ten of `StuckFrameHangs`: read apart it is never seen, read together it is the payload. */
  lemma {:induction false} StuckFrameCut(x: byte, passes: nat)
    ensures !SameAsWhole(STUCK, [[x]])
    ensures Spin(STUCK, passes).frames == seq(passes, _ => Frame(OP_TEXT, []))
    ensures Spin(STUCK + [x], passes).frames == seq(passes, _ => Frame(OP_TEXT, [x]))
  {
    StuckFrameHangs(passes);
    StuckIsStuck([x]);
    var data := STUCK + [x];
    assert Drain(data) == Drained([], data, Parsed(Frame(OP_TEXT, [x]), 0));
    SpunIsDrained(data, passes);
    assert [] + Again(Drain(data).end, passes) == seq(passes, _ => Frame(OP_TEXT, [x]));
    StuckIsStuck([]);
    assert STUCK + [] == STUCK;
    ConcatCons(STUCK, [[x]]);
    CutIff(STUCK, [[x]]);
  }

  /** A refused head is refused again, and reported again, in every later read. */
  lemma {:induction false} ReportedAgain(a: seq<byte>, b: seq<byte>)
    requires Drain(a).end.Close? || Drain(a).end.BadOpcode?
    ensures Drain(Drain(a).rest + b) == Drained([], Drain(a).rest + b, Drain(a).end)
  {
    ParseStable(Drain(a).rest, b);
  }

  // ---------------------------------------------------------------- streams of server frames

  /** An unmasked frame as section 5.2 lays it out; `fin` is the FIN bit (128 or 0). */
  datatype Sent = Sent(fin: byte, frame: Frame)

  predicate Sendable(f: Sent) {
    (f.fin == 0 || f.fin == FIN_BIT) && f.frame.op in {0, 1, 2, 9, 10} && |f.frame.payload| < TWO_64 / 2
  }

  function Wire(f: Sent): (s: seq<byte>)
    requires Sendable(f)
  {
    [f.fin + f.frame.op] + LengthField(|f.frame.payload|, 0) + f.frame.payload
  }

  function Stream(fs: seq<Sent>): seq<byte>
    requires forall f :: f in fs ==> Sendable(f)
  {
    if fs == [] then [] else Wire(fs[0]) + Stream(fs[1..])
  }

  function Frames(fs: seq<Sent>): seq<Frame> {
    seq(|fs|, i requires 0 <= i < |fs| => fs[i].frame)
  }

  lemma {:induction false} LengthRoundTrip(f: Sent, rest: seq<byte>)
    requires Sendable(f) && |Wire(f) + rest| >= 4
    ensures var d, n := Wire(f) + rest, |f.frame.payload|;
            d[1] < 128 && Extent(d) == Some((|Wire(f)| - n, n))
  {
    var n := |f.frame.payload|;
    var d := Wire(f) + rest;
    Powers();
    if MAX_SMALL < n <= MAX_LARGE {
      FromBeOfBe(n, 2);
      assert d[2..4] == Be(n, 2);
    } else if n > MAX_LARGE {
      FromBeOfBe(n, 8);
      assert d[2..10] == Be(n, 8);
    }
  }

  /** `parseheader` inverts the unmasked form: opcode, payload and size, once four bytes are there. */
  lemma {:induction false} ParseInvertsWire(f: Sent, rest: seq<byte>)
    requires Sendable(f)
    ensures |Wire(f) + rest| >= 4 ==> ParseFrame(Wire(f) + rest) == Parsed(f.frame, |Wire(f)|)
    ensures |Wire(f) + rest| < 4 ==> ParseFrame(Wire(f) + rest) == NeedMore
  {
    var d, n := Wire(f) + rest, |f.frame.payload|;
    if |d| >= 4 {
      LengthRoundTrip(f, rest);
      assert d[0] == f.fin + f.frame.op && d[0] % 128 == f.frame.op;
      assert d[|Wire(f)| - n..|Wire(f)|] == f.frame.payload;
    }
  }

  /** A frame of at most three bytes on the wire: payload of at most one byte. */
  predicate Tiny(f: Sent)
    requires Sendable(f)
  {
    |f.frame.payload| <= 1
  }

  lemma {:induction false} TinyWire(f: Sent)
    requires Sendable(f)
    ensures Tiny(f) <==> |Wire(f)| < 4
    ensures |Wire(f)| >= 2
  {
  }

  /** The last frame of the stream is tiny and so waits for the bytes after it. */
  predicate HoldsLast(fs: seq<Sent>)
    requires forall f :: f in fs ==> Sendable(f)
  {
    fs != [] && Tiny(fs[|fs| - 1])
  }

  /** What is delivered from a stream. */
  function Delivered(fs: seq<Sent>): seq<Frame>
    requires forall f :: f in fs ==> Sendable(f)
  {
    if HoldsLast(fs) then Frames(fs[..|fs| - 1]) else Frames(fs)
  }

  function Held(fs: seq<Sent>): seq<byte>
    requires forall f :: f in fs ==> Sendable(f)
  {
    if HoldsLast(fs) then Wire(fs[|fs| - 1]) else []
  }

  lemma {:induction false} DeliveredCons(fs: seq<Sent>)
    requires (forall f :: f in fs ==> Sendable(f)) && |fs| > 1
    ensures Delivered(fs) == [fs[0].frame] + Delivered(fs[1..]) && Held(fs) == Held(fs[1..])
  {
    var tail := fs[1..];
    assert fs[|fs| - 1] == tail[|tail| - 1];
    assert [fs[0].frame] + Frames(tail) == Frames(fs);
    assert [fs[0].frame] + Frames(tail[..|tail| - 1]) == Frames(fs[..|fs| - 1]);
  }

  /** One frame leaves the buffer. */
  lemma {:induction false} DrainOne(f: Sent, rest: seq<byte>)
    requires Sendable(f) && |Wire(f) + rest| >= 4
    ensures Drain(Wire(f) + rest) == After([f.frame], Drain(rest))
  {
    ParseInvertsWire(f, rest);
    assert (Wire(f) + rest)[|Wire(f)|..] == rest;
  }

  /**
    Every frame of the stream is delivered, in order and with its payload, except that a tiny frame
    at the very end waits for the bytes after it; nothing else stays in the buffer.
    */
  lemma {:induction false} StreamDelivered(fs: seq<Sent>)
    requires forall f :: f in fs ==> Sendable(f)
    ensures Drain(Stream(fs)) == Drained(Delivered(fs), Held(fs), NeedMore)
    decreases |fs|
  {
    if |fs| == 1 {
      LastFrame(fs[0]);
      assert fs == [fs[0]];
    } else if fs != [] {
      TinyWire(fs[0]);
      TinyWire(fs[1]);
      StreamDelivered(fs[1..]);
      DrainOne(fs[0], Stream(fs[1..]));
      DeliveredCons(fs);
    }
  }

  lemma {:induction false} LastFrame(f: Sent)
    requires Sendable(f)
    ensures Drain(Stream([f])) == Drained(Delivered([f]), Held([f]), NeedMore)
  {
    TinyWire(f);
    assert [f][1..] == [] && [f][..0] == [];
    assert Stream([f]) == Wire(f) + [] && Wire(f) + [] == Wire(f);
    if !Tiny(f) {
      DrainOne(f, []);
      assert [f.frame] + [] == Frames([f]);
    }
  }

  // ---------------------------------------------------------------- the client

  class WebsocketClient {
    var buffer: seq<byte>
    var frames: seq<Frame>     // delivered to handle_frame or handle_ping_pong
    var errors: seq<nat>       // reported to error()

    constructor ()
      ensures buffer == [] && frames == [] && errors == []
    {
      buffer, frames, errors := [], [], [];
    }

    /** `parseheader`: true asks the caller to try again. */
    method ParseHeader() returns (again: bool)
      modifies this
      ensures match ParseFrame(old(buffer))
              case Parsed(frame, size) =>
                again && frames == old(frames) + [frame] && buffer == old(buffer)[size..] && errors == old(errors)
              case Masked => again && unchanged(this)
              case NeedMore => !again && unchanged(this)
              case Close(code) =>
                !again && buffer == old(buffer) && frames == old(frames) && errors == old(errors) + [code]
              case BadOpcode =>
                !again && buffer == old(buffer) && frames == old(frames) && errors == old(errors) + [0]
    {
      if |buffer| < 4 { return false; }
      assert buffer[2..4] == [buffer[2], buffer[3]];
      hide FromBe, FrameEnd, Substr;
      var op: byte := buffer[0] % 128;
      if CarriesPayload(op) {
        if buffer[1] >= MASK_BIT { return true; }
        var payloadStart: nat := 2;
        var length: nat := buffer[1];
        if buffer[1] == LENGTH_LARGE {
          if |buffer| < 8 { return false; }
          length := Big16(buffer[2], buffer[3]);
          payloadStart := payloadStart + 2;
        } else if buffer[1] == LENGTH_HUGE {
          if |buffer| < 10 { return false; }
          length := Big64(buffer);
          payloadStart := payloadStart + 8;
        }
        var end := FrameEnd(payloadStart, length);
        if |buffer| < end { return false; }
        frames := frames + [Frame(op, Substr(buffer, payloadStart, length))];
        buffer := buffer[end..];
        return true;
      }
      errors := errors + [if op == OP_CLOSE then Big16(buffer[2], buffer[3]) else 0];
      return false;
    }

    /**
      The CONNECTED branch of `handle_buffer`, watched for a number of passes of its loop; `running`
      tells that it has not returned by then. It returns, with everything drained, as soon as it is
      watched for one pass more than there are frames, unless it never returns; then each further pass
      delivers the same frame again, or none.
      */
    method HandleBuffer(bytes: seq<byte>, passes: nat) returns (running: bool)
      modifies this
      ensures var s := Spin(old(buffer) + bytes, passes);
              && running == s.running && frames == old(frames) + s.frames && buffer == s.rest
              && errors == old(errors) + if running then [] else Reported(ParseFrame(buffer))
      ensures var r := Drain(old(buffer) + bytes);
              passes > |r.frames| ==>
                && running == (MaskedHead(r.rest) || StuckHead(r.rest))
                && frames == old(frames) + r.frames + Again(r.end, passes - |r.frames|) && buffer == r.rest
                && errors == old(errors) + Reported(r.end)
    {
      hide Spin, Drain, ParseFrame, Reported;
      buffer := buffer + bytes;
      ghost var data := buffer;
      ghost var taken := [];
      running := true;
      var pass := 0;
      SpinStarts(data, passes);
      while running && pass < passes
        invariant pass <= passes && frames == old(frames) + taken
        invariant running ==>
            errors == old(errors) && SpunFurther(taken, Spin(buffer, passes - pass)) == Spin(data, passes)
        invariant !running ==>
            Spin(data, passes) == Spun(taken, buffer, false) && errors == old(errors) + Reported(ParseFrame(buffer))
        decreases running, passes - pass
      {
        SpinStep(taken, buffer, passes - pass);
        ghost var p := ParseFrame(buffer);
        running := ParseHeader();
        pass := pass + 1;
        if p.Parsed? { taken := taken + [p.frame]; }
      }
      SpinEnds(taken, buffer, data, passes);
    }
  }

  lemma {:induction false} SpinStarts(data: seq<byte>, passes: nat)
    ensures SpunFurther([], Spin(data, passes)) == Spin(data, passes)
  {
  }

  /** One pass of the loop. */
  lemma {:induction false} SpinStep(taken: seq<Frame>, data: seq<byte>, passes: nat)
    requires passes > 0
    ensures match ParseFrame(data)
            case Parsed(frame, size) =>
              SpunFurther(taken, Spin(data, passes)) == SpunFurther(taken + [frame], Spin(data[size..], passes - 1))
            case Masked => Spin(data, passes) == Spin(data, passes - 1)
            case _ => SpunFurther(taken, Spin(data, passes)) == Spun(taken, data, false)
    ensures ParseFrame(data).NeedMore? ==> Reported(ParseFrame(data)) == []
    ensures ParseFrame(data).BadOpcode? ==> Reported(ParseFrame(data)) == [0]
    ensures ParseFrame(data).Close? ==> Reported(ParseFrame(data)) == [ParseFrame(data).code]
  {
    hide ParseFrame;
    var p := ParseFrame(data);
    if p.Parsed? {
      var s := Spin(data[p.size..], passes - 1);
      assert taken + ([p.frame] + s.frames) == (taken + [p.frame]) + s.frames;
    } else {
      assert taken + [] == taken;
    }
  }

  lemma {:induction false} SpinEnds(taken: seq<Frame>, left: seq<byte>, data: seq<byte>, passes: nat)
    ensures SpunFurther(taken, Spin(left, 0)) == Spun(taken, left, true)
    ensures var s, r := Spin(data, passes), Drain(data);
            passes > |r.frames| ==>
              && s == Spun(r.frames + Again(r.end, passes - |r.frames|), r.rest,
                           MaskedHead(r.rest) || StuckHead(r.rest))
              && (MaskedHead(r.rest) || StuckHead(r.rest) ==> Reported(r.end) == [])
              && r.end == ParseFrame(r.rest)
  {
    assert taken + [] == taken;
    RunningIff(data, passes);
    HangsIff(data);
    if passes > |Drain(data).frames| { SpunIsDrained(data, passes); }
  }

  /** Frames taken by earlier passes. */
  function SpunFurther(taken: seq<Frame>, s: Spun): Spun { s.(frames := taken + s.frames) }

  /** The error() calls the end of a drain makes. */
  ghost function Reported(end: Parse): seq<nat> {
    match end case Close(code) => [code] case BadOpcode => [0] case _ => []
  }

  /** The eight length bytes, shifted together from the top. */
  method Big64(data: seq<byte>) returns (length: nat)
    requires |data| >= 10
    ensures length == FromBe(data[2..10])
  {
    length := 0;
    for v := 2 to 10
      invariant length == FromBe(data[2..v])
    {
      FromBeAppend(data[2..v], data[v]);
      assert data[2..v + 1] == data[2..v] + [data[v]];
      length := 256 * length + data[v];
    }
  }

  /** (hi << 8) | lo */
  function Big16(hi: byte, lo: byte): (n: nat)
    ensures n == FromBe([hi, lo])
  {
    assert [hi, lo][..1] == [hi] && [hi][..0] == [];
    assert FromBe([hi]) == hi;
    var h: int := hi;
    256 * h + lo
  }
}
