/**
  The chunked-transfer states of the HTTPS client (section 7.1 of RFC 9112), from the first chunk
  length on. `Settle` is what one call of the state loop does to the client; the class runs it.
  */
module ChunkedBody {
  import opened Bytes

  datatype State = ChunkLen | ChunkContent | ChunkTrailer | ChunkLast | Done

  /** `stopped`: the last call returned false, so the read loop ended. */
  datatype Client = Client(state: State, buffer: seq<byte>, body: seq<byte>, chunkSize: nat, chunkReceive: nat,
                           stopped: bool)

  const Fresh := Client(ChunkLen, [], [], 0, 0, false)

  // ---------------------------------------------------------------- std::string::find("\r\n"), std::stoi(_, _, 16)

  predicate CrlfAt(s: seq<byte>, i: nat) { i + 1 < |s| && s[i] == CR && s[i + 1] == LF }

  /** Position of the first CRLF, or the length of s when there is none. */
  function FindCrlf(s: seq<byte>): (i: nat)
    ensures i <= |s| && (i < |s| ==> CrlfAt(s, i))
    ensures forall k: nat :: k < i ==> !CrlfAt(s, k)
  {
    if s == [] then 0 else if CrlfAt(s, 0) then 0 else
    var rest := FindCrlf(s[1..]);
    assert forall k: nat :: 0 < k && CrlfAt(s, k) ==> CrlfAt(s[1..], k - 1);
    assert rest < |s[1..]| ==> CrlfAt(s[1..], rest);
    1 + rest
  }

  lemma {:induction false} FirstCrlf(s: seq<byte>, i: nat)
    requires CrlfAt(s, i) && forall k: nat :: k < i ==> !CrlfAt(s, k)
    ensures FindCrlf(s) == i
  {
    assert !(FindCrlf(s) > i);
  }

  lemma {:induction false} FindCrlfStable(s: seq<byte>, t: seq<byte>)
    requires FindCrlf(s) < |s|
    ensures FindCrlf(s + t) == FindCrlf(s)
  {
    forall k: nat | k < FindCrlf(s) ensures !CrlfAt(s + t, k) { assert CrlfAt(s, k) <==> CrlfAt(s + t, k); }
    FirstCrlf(s + t, FindCrlf(s));
  }

  predicate IsSpace(b: byte) { b == 32 || 9 <= b <= 13 }

  function HexDigit(b: byte): (d: Option<nat>)
    ensures d.Some? ==> d.value < 16
  {
    if 48 <= b <= 57 then Some(b - 48)
    else if 65 <= b <= 70 then Some(b - 55)
    else if 97 <= b <= 102 then Some(b - 87)
    else None
  }

  function SkipSpace(s: seq<byte>): seq<byte> {
    if s != [] && IsSpace(s[0]) then SkipSpace(s[1..]) else s
  }

  /** Value of the leading run of hex digits, continuing from `acc`. */
  function HexRun(s: seq<byte>, acc: nat): nat {
    if s != [] && HexDigit(s[0]).Some? then HexRun(s[1..], 16 * acc + HexDigit(s[0]).value) else acc
  }

  predicate StartsHex(s: seq<byte>) { s != [] && HexDigit(s[0]).Some? }

  predicate Signed(s: seq<byte>) { s != [] && (s[0] == 45 || s[0] == 43) }

  function Unsigned(s: seq<byte>): seq<byte> { if Signed(s) then s[1..] else s }

  function Unprefixed(t: seq<byte>): seq<byte> {
    if |t| > 2 && t[0] == 48 && (t[1] == 120 || t[1] == 88) && StartsHex(t[2..]) then t[2..] else t
  }

  /** std::stoi in base 16; None is either of its exceptions. */
  function Stoi16(text: seq<byte>): (r: Option<int>)
    ensures r.Some? ==> -0x8000_0000 <= r.value < 0x8000_0000
  {
    var s := SkipSpace(text);
    var negative := s != [] && s[0] == 45;
    var u := Unprefixed(Unsigned(s));
    if !StartsHex(u) then None else
    var magnitude: int := HexRun(u, 0);
    var n := if negative then -magnitude else magnitude;
    if -0x8000_0000 <= n < 0x8000_0000 then Some(n) else None
  }

  /** Conversion of the int result to size_t. */
  function ToSize(n: int): nat
    requires -0x8000_0000 <= n < 0x8000_0000
  {
    if n < 0 then n + 0x1_0000_0000_0000_0000 else n
  }

  // ---------------------------------------------------------------- one pass of the state loop

  /** How one pass of the loop body ends: another pass, `return true`, or `return false`. */
  datatype Pass = Again(c: Client) | Wait(c: Client) | Stop(c: Client)

  /** How much of the buffer belongs to the current chunk. */
  function ToRead(c: Client): (n: nat)
    ensures n <= |c.buffer|
  {
    if c.chunkReceive + |c.buffer| > c.chunkSize
    then if c.chunkReceive < c.chunkSize then c.chunkSize - c.chunkReceive else 0
    else |c.buffer|
  }

  function TakeContent(c: Client, n: nat): Client
    requires n <= |c.buffer|
  {
    c.(body := c.body + c.buffer[..n], chunkReceive := c.chunkReceive + n, buffer := c.buffer[n..])
  }

  function StepContent(c: Client): Pass {
    var d := TakeContent(c, ToRead(c));
    if d.chunkReceive >= d.chunkSize then Again(d.(state := ChunkTrailer)) else Wait(d)
  }

  /** What the size line makes of the client; `rest` is the input behind the line's CRLF. */
  function StartChunk(c: Client, line: seq<byte>, rest: seq<byte>): Pass {
    var d := c.(chunkReceive := 0, buffer := rest);
    var size := Stoi16(line);
    if size.None? then Stop(d)
    else if size.value == 0 then Again(d.(state := ChunkLast, chunkSize := 2))
    else Again(d.(state := ChunkContent, chunkSize := ToSize(size.value)))
  }

  function StepLen(c: Client): Pass {
    var at := FindCrlf(c.buffer);
    if at == |c.buffer| then Wait(c) else StartChunk(c, c.buffer[..at], c.buffer[at + 2..])
  }

  function Step(c: Client): Pass {
    match c.state
    case ChunkContent => StepContent(c)
    case ChunkTrailer =>
      if CrlfAt(c.buffer, 0) then Again(c.(state := ChunkLen, buffer := c.buffer[2..])) else Wait(c)
    case ChunkLast =>
      if CrlfAt(c.buffer, 0) then Stop(c.(state := Done)) else Wait(c)
    case ChunkLen => StepLen(c)
    case Done => Stop(c)
  }

  /** The loop's measure: every further pass eats input or leaves the content state. */
  function Rank(c: Client): nat { 2 * |c.buffer| + if c.state == ChunkContent then 1 else 0 }

  lemma {:induction false} StepDecreases(c: Client)
    ensures Step(c).Again? ==> Rank(Step(c).c) < Rank(c)
  {
  }

  /** A whole call: passes until one of them returns. */
  function Settle(c: Client): (r: Client)
    decreases Rank(c)
  {
    StepDecreases(c);
    match Step(c)
    case Again(d) => Settle(d)
    case Wait(d) => d
    case Stop(d) => d.(stopped := true)
  }

  /**
    A read of `bytes` and the call it triggers. A stopped client reads no more: the bytes still
    on the wire are kept behind the buffer, so that different read patterns can be compared.
    */
  function Receive(c: Client, bytes: seq<byte>): (r: Client) {
    if c.stopped then c.(buffer := c.buffer + bytes) else Settle(c.(buffer := c.buffer + bytes))
  }

  function ReceiveAll(c: Client, packets: seq<seq<byte>>): Client
    decreases |packets|
  {
    if packets == [] then c else ReceiveAll(Receive(c, packets[0]), packets[1..])
  }

  // ---------------------------------------------------------------- split independence

  function More(c: Client, bytes: seq<byte>): Client { c.(buffer := c.buffer + bytes) }

  /** A pass `q` on more input behind that of pass `p` does the same, and leaves the rest behind. */
  ghost predicate SamePass(p: Pass, q: Pass, t: seq<byte>) {
    match p
    case Again(d) => q == Again(More(d, t))
    case Stop(d) => q == Stop(More(d, t))
    case Wait(d) => q == Step(More(d, t))
  }

  lemma {:induction false} StepLenMore(c: Client, t: seq<byte>)
    requires c.state == ChunkLen
    ensures SamePass(Step(c), Step(More(c, t)), t)
  {
    var b, at := c.buffer, FindCrlf(c.buffer);
    if at < |b| {
      FindCrlfStable(b, t);
      assert (b + t)[..at] == b[..at] && (b + t)[at + 2..] == b[at + 2..] + t;
    }
  }

  lemma {:induction false} TakeContentMore(c: Client, n: nat, t: seq<byte>)
    requires n <= |c.buffer|
    ensures TakeContent(More(c, t), n) == More(TakeContent(c, n), t)
  {
    assert (c.buffer + t)[..n] == c.buffer[..n] && (c.buffer + t)[n..] == c.buffer[n..] + t;
  }

  /** Taking the whole buffer and then k bytes more is taking both at once. */
  lemma {:induction false} TakeContentTwice(c: Client, t: seq<byte>, k: nat)
    requires k <= |t|
    ensures TakeContent(More(TakeContent(c, |c.buffer|), t), k) == TakeContent(More(c, t), |c.buffer| + k)
  {
    var b := c.buffer;
    assert b[..|b|] == b && b[|b|..] + t == t;
    assert (b + t)[..|b| + k] == b + t[..k] && (b + t)[|b| + k..] == t[k..];
    assert (c.body + b) + t[..k] == c.body + (b + t[..k]);
  }

  /** Content that has enough input, or resumes where it ran out. */
  lemma {:induction false} StepContentMore(c: Client, t: seq<byte>)
    requires c.state == ChunkContent
    ensures SamePass(StepContent(c), StepContent(More(c, t)), t)
  {
    if c.chunkReceive + |c.buffer| < c.chunkSize {
      TakeContentTwice(c, t, ToRead(More(TakeContent(c, |c.buffer|), t)));
    } else {
      TakeContentMore(c, ToRead(c), t);
    }
  }

  lemma {:induction false} StepMore(c: Client, t: seq<byte>)
    ensures SamePass(Step(c), Step(More(c, t)), t)
  {
    match c.state
    case ChunkLen => StepLenMore(c, t);
    case ChunkContent => StepContentMore(c, t);
    case ChunkTrailer =>
      if CrlfAt(c.buffer, 0) { assert (c.buffer + t)[2..] == c.buffer[2..] + t; }
    case ChunkLast =>
    case Done =>
  }

  /** One read or two: the same client. */
  lemma {:induction false} SettleSplit(c: Client, t: seq<byte>)
    requires !c.stopped
    ensures Receive(Settle(c), t) == Settle(More(c, t))
    decreases Rank(c)
  {
    StepMore(c, t);
    StepDecreases(c);
    if Step(c).Again? {
      SettleSplit(Step(c).c, t);
    }
  }

  /**
    Split independence: cutting the byte stream into reads at any places leaves the client,
    byte for byte of body and buffer, as one single read of the whole would.
    */
  lemma {:induction false} SplitIndependent(c: Client, first: seq<byte>, packets: seq<seq<byte>>)
    requires !c.stopped
    ensures ReceiveAll(Receive(c, first), packets) == Receive(c, first + Concat(packets))
    decreases |packets|
  {
    if packets == [] {
      assert first + Concat(packets) == first;
    } else {
      ReceiveAppend(c, first, packets[0]);
      SplitIndependent(c, first + packets[0], packets[1..]);
      assert first + Concat(packets) == (first + packets[0]) + Concat(packets[1..]);
    }
  }

  lemma {:induction false} ReceiveAppend(c: Client, a: seq<byte>, b: seq<byte>)
    requires !c.stopped
    ensures Receive(Receive(c, a), b) == Receive(c, a + b)
  {
    hide Settle, Step;
    SettleSplit(More(c, a), b);
    assert More(More(c, a), b) == More(c, a + b) by { assert (c.buffer + a) + b == c.buffer + (a + b); }
  }

  // ---------------------------------------------------------------- well-formed bodies

  /** A chunk as sent: the size line (hex digits in any spelling, extensions after them) and the data. */
  datatype Chunk = Chunk(line: seq<byte>, data: seq<byte>)

  ghost predicate IsLine(line: seq<byte>, size: nat) {
    Stoi16(line) == Some(size) && forall k: nat :: !CrlfAt(line + [CR], k)
  }

  ghost predicate IsChunk(c: Chunk) { c.data != [] && IsLine(c.line, |c.data|) }

  const CRLF: seq<byte> := [CR, LF]

  function Encode(chunks: seq<Chunk>, last: seq<byte>): seq<byte> {
    if chunks == [] then last + CRLF + CRLF
    else chunks[0].line + CRLF + chunks[0].data + CRLF + Encode(chunks[1..], last)
  }

  function Payload(chunks: seq<Chunk>): seq<byte> {
    if chunks == [] then [] else chunks[0].data + Payload(chunks[1..])
  }

  lemma {:induction false} LineFound(line: seq<byte>, size: nat, rest: seq<byte>)
    requires IsLine(line, size)
    ensures FindCrlf(line + CRLF + rest) == |line|
    ensures (line + CRLF + rest)[..|line|] == line && (line + CRLF + rest)[|line| + 2..] == rest
  {
    var s := line + CRLF + rest;
    forall k: nat | k < |line| ensures !CrlfAt(s, k) { assert CrlfAt(s, k) ==> CrlfAt(line + [CR], k); }
    FirstCrlf(s, |line|);
  }

  lemma {:induction false} EatLine(c: Client, line: seq<byte>, size: nat, rest: seq<byte>)
    requires c.state == ChunkLen && c.buffer == line + CRLF + rest && IsLine(line, size)
    ensures Step(c) == StartChunk(c, line, rest)
  {
    LineFound(line, size, rest);
  }

  lemma {:induction false} EatData(c: Client, data: seq<byte>, rest: seq<byte>)
    requires c.state == ChunkContent && c.buffer == data + CRLF + rest && c.chunkReceive == 0 && c.chunkSize == |data|
    ensures Step(c) == Again(c.(state := ChunkTrailer, body := c.body + data, chunkReceive := |data|,
                                buffer := CRLF + rest))
  {
    assert c.buffer[..|data|] == data && c.buffer[|data|..] == CRLF + rest;
  }

  lemma {:induction false} EatTrailer(c: Client, rest: seq<byte>)
    requires c.state == ChunkTrailer && c.buffer == CRLF + rest
    ensures Step(c) == Again(c.(state := ChunkLen, buffer := rest))
  {
    assert c.buffer[2..] == rest;
  }

  /** One chunk is eaten whole and its data appended to the body. */
  lemma {:induction false} EatChunk(c: Client, line: seq<byte>, data: seq<byte>, rest: seq<byte>)
    requires !c.stopped && c.state == ChunkLen && c.buffer == line + CRLF + (data + CRLF + rest)
    requires data != [] && IsLine(line, |data|)
    ensures Settle(c) == Settle(c.(buffer := rest, body := c.body + data, chunkSize := |data|, chunkReceive := |data|))
  {
    var after := data + CRLF + rest;
    EatLine(c, line, |data|, after);
    var c1 := c.(state := ChunkContent, buffer := after, chunkSize := |data|, chunkReceive := 0);
    assert Settle(c) == Settle(c1);
    EatData(c1, data, rest);
    var c2 := c1.(state := ChunkTrailer, body := c.body + data, chunkReceive := |data|, buffer := CRLF + rest);
    assert Settle(c1) == Settle(c2);
    EatTrailer(c2, rest);
  }

  lemma {:induction false} EatLast(c: Client, last: seq<byte>)
    requires !c.stopped && c.state == ChunkLen && c.buffer == last + CRLF + CRLF && IsLine(last, 0)
    ensures Settle(c) == c.(state := Done, stopped := true, buffer := CRLF, chunkSize := 2, chunkReceive := 0)
  {
    EatLine(c, last, 0, CRLF);
    var c1 := c.(state := ChunkLast, chunkSize := 2, chunkReceive := 0, buffer := CRLF);
    assert Settle(c) == Settle(c1);
    assert Step(c1) == Stop(c1.(state := Done));
  }

  /** The decoder undoes the encoding: done, with the payload as body, on the final CRLF. */
  lemma {:induction false} DecodesEncoding(c: Client, chunks: seq<Chunk>, last: seq<byte>)
    requires !c.stopped && c.state == ChunkLen && c.buffer == Encode(chunks, last)
    requires (forall k :: k in chunks ==> IsChunk(k)) && IsLine(last, 0)
    ensures Settle(c).state == Done && Settle(c).stopped
    ensures Settle(c).body == c.body + Payload(chunks)
    ensures Settle(c).buffer == CRLF
    decreases |chunks|
  {
    hide Settle, IsLine;
    if chunks == [] {
      EatLast(c, last);
      assert c.body + Payload([]) == c.body;
    } else {
      var line, data, tail := chunks[0].line, chunks[0].data, Encode(chunks[1..], last);
      assert IsChunk(chunks[0]);
      assert c.buffer == line + CRLF + (data + CRLF + tail);
      EatChunk(c, line, data, tail);
      DecodesEncoding(c.(buffer := tail, body := c.body + data, chunkSize := |data|, chunkReceive := |data|),
                      chunks[1..], last);
      assert c.body + data + Payload(chunks[1..]) == c.body + Payload(chunks);
    }
  }

  /**
    End to end: every list of non-empty chunks, cut into reads anywhere, yields the concatenated
    data, and the client is done after the last read.
    */
  lemma {:induction false} AnySplitDecodes(chunks: seq<Chunk>, last: seq<byte>, first: seq<byte>,
                                           packets: seq<seq<byte>>)
    requires (forall k :: k in chunks ==> IsChunk(k)) && IsLine(last, 0)
    requires first + Concat(packets) == Encode(chunks, last)
    ensures var r := ReceiveAll(Receive(Fresh, first), packets);
            r.state == Done && r.stopped && r.body == Payload(chunks)
  {
    SplitIndependent(Fresh, first, packets);
    assert More(Fresh, Encode(chunks, last)).buffer == Encode(chunks, last);
    DecodesEncoding(More(Fresh, Encode(chunks, last)), chunks, last);
    assert [] + Payload(chunks) == Payload(chunks);
  }

  /** Not before: while any part of the encoding is missing the client is neither done nor stopped. */
  lemma {:induction false} NotDoneEarlier(chunks: seq<Chunk>, last: seq<byte>, prefix: seq<byte>, rest: seq<byte>)
    requires (forall k :: k in chunks ==> IsChunk(k)) && IsLine(last, 0)
    requires prefix + rest == Encode(chunks, last) && rest != []
    ensures !Receive(Fresh, prefix).stopped && Receive(Fresh, prefix).state != Done
  {
    var c := Receive(Fresh, prefix);
    ReceiveAppend(Fresh, prefix, rest);
    assert More(Fresh, Encode(chunks, last)).buffer == Encode(chunks, last);
    DecodesEncoding(More(Fresh, Encode(chunks, last)), chunks, last);
    DoneHasCrlf(More(Fresh, prefix));
    assert c.stopped ==> Receive(c, rest).state == c.state && |Receive(c, rest).buffer| == |c.buffer| + |rest|;
  }

  /** A client that stops in Done has the final CRLF still in its buffer. */
  lemma {:induction false} DoneHasCrlf(c: Client)
    requires !c.stopped && c.state != Done
    ensures Settle(c).state == Done ==> Settle(c).stopped && CrlfAt(Settle(c).buffer, 0)
    decreases Rank(c)
  {
    StepDecreases(c);
    if Step(c).Again? { DoneHasCrlf(Step(c).c); }
  }

  // ---------------------------------------------------------------- the usual size line

  /** n in lower-case hex, shortest form. */
  function Hex(n: nat): (s: seq<byte>)
    ensures s != []
    ensures forall i :: 0 <= i < |s| ==> HexDigit(s[i]).Some? && s[i] != 120 && s[i] != 88
  {
    var d: byte := if n % 16 < 10 then 48 + n % 16 else 87 + n % 16;
    if n < 16 then [d] else Hex(n / 16) + [d]
  }

  lemma {:induction false} HexRunAppend(s: seq<byte>, d: byte, acc: nat)
    requires (forall i :: 0 <= i < |s| ==> HexDigit(s[i]).Some?) && HexDigit(d).Some?
    ensures HexRun(s + [d], acc) == 16 * HexRun(s, acc) + HexDigit(d).value
    decreases |s|
  {
    if s != [] {
      assert (s + [d])[1..] == s[1..] + [d];
      HexRunAppend(s[1..], d, 16 * acc + HexDigit(s[0]).value);
    } else {
      assert (s + [d])[1..] == [];
    }
  }

  lemma {:induction false} HexRunOfHex(n: nat)
    ensures HexRun(Hex(n), 0) == n
  {
    var d: byte := if n % 16 < 10 then 48 + n % 16 else 87 + n % 16;
    assert HexDigit(d) == Some(n % 16);
    if n >= 16 {
      HexRunOfHex(n / 16);
      HexRunAppend(Hex(n / 16), d, 0);
    } else {
      HexRunAppend([], d, 0);
      assert [] + [d] == [d];
    }
  }

  /** The shortest hex form is a size line for every size below 2^31. */
  lemma {:induction false} HexIsLine(n: nat)
    requires n < 0x8000_0000
    ensures IsLine(Hex(n), n)
  {
    var s := Hex(n);
    HexRunOfHex(n);
    assert HexDigit(s[0]).Some? && !IsSpace(s[0]) && s[0] != 45 && s[0] != 43;
    forall k: nat ensures !CrlfAt(s + [CR], k) {
      assert k + 1 < |s + [CR]| ==> HexDigit((s + [CR])[k]).Some?;
    }
  }

  // ---------------------------------------------------------------- the loop

  class HttpsClient {
    var state: State
    var buffer: seq<byte>
    var body: seq<byte>
    var chunkSize: nat
    var chunkReceive: nat

    ghost function Value(stopped: bool): Client
      reads this
    {
      Client(state, buffer, body, chunkSize, chunkReceive, stopped)
    }

    constructor ()
      ensures Value(false) == Fresh
    {
      state, buffer, body, chunkSize, chunkReceive := ChunkLen, [], [], 0, 0;
    }

    /** One pass of the switch. */
    method RunPass() returns (outcome: Outcome)
      modifies this
      ensures match Step(old(Value(false)))
              case Again(d) => outcome == Changed && Value(false) == d
              case Wait(d) => outcome == Idle && Value(false) == d
              case Stop(d) => outcome == Finished && Value(false) == d
    {
      outcome := Idle;
      match state {
        case ChunkContent =>
          var toRead := |buffer|;
          if chunkReceive + |buffer| > chunkSize {
            toRead := if chunkReceive < chunkSize then chunkSize - chunkReceive else 0;
          }
          body := body + buffer[..toRead];
          chunkReceive := chunkReceive + toRead;
          buffer := buffer[toRead..];
          if chunkReceive >= chunkSize {
            state := ChunkTrailer;
            outcome := Changed;
          }
        case ChunkTrailer =>
          if CrlfAt(buffer, 0) {
            state := ChunkLen;
            buffer := buffer[2..];
            outcome := Changed;
          }
        case ChunkLast =>
          if CrlfAt(buffer, 0) {
            state := Done;
            outcome := Finished;
          }
        case ChunkLen =>
          var at := FindCrlf(buffer);
          if at < |buffer| {
            chunkReceive := 0;
            var size := Stoi16(buffer[..at]);
            buffer := buffer[at + 2..];
            if size.None? { return Finished; }
            state, chunkSize := ChunkContent, ToSize(size.value);
            if chunkSize == 0 {
              state, chunkSize := ChunkLast, 2;
            }
            outcome := Changed;
          }
        case Done =>
          outcome := Finished;
      }
    }

    /** One read and the state loop: returns false when the read loop must end. */
    method HandleBuffer(bytes: seq<byte>) returns (more: bool)
      modifies this
      ensures Value(!more) == Receive(old(Value(false)), bytes)
    {
      buffer := buffer + bytes;
      ghost var start := Value(false);
      var outcome := Changed;
      while outcome == Changed
        invariant outcome == Changed ==> Settle(Value(false)) == Settle(start)
        invariant outcome != Changed ==> Value(outcome == Finished) == Settle(start)
        decreases outcome == Changed, Rank(Value(false))
      {
        StepDecreases(Value(false));
        outcome := RunPass();
      }
      more := outcome == Idle;
    }
  }

  /** How a pass ends: the state changed, it waits for input, or it ends the read loop. */
  datatype Outcome = Changed | Idle | Finished

  // ---------------------------------------------------------------- size lines in general

  const LOWER: seq<byte> := [48, 49, 50, 51, 52, 53, 54, 55, 56, 57, 97, 98, 99, 100, 101, 102]
  const UPPER: seq<byte> := [48, 49, 50, 51, 52, 53, 54, 55, 56, 57, 65, 66, 67, 68, 69, 70]

  /** s spells the digits vs in hex, upper and lower case as it likes. */
  predicate Spells(s: seq<byte>, vs: seq<nat>) {
    |s| == |vs| && forall i :: 0 <= i < |s| ==> vs[i] < 16 && (s[i] == LOWER[vs[i]] || s[i] == UPPER[vs[i]])
  }

  function Number(vs: seq<nat>): nat { if vs == [] then 0 else 16 * Number(vs[..|vs| - 1]) + vs[|vs| - 1] }

  predicate NoHexAhead(s: seq<byte>) { s == [] || (s[0] !in LOWER && s[0] !in UPPER) }

  /** White space, a sign, a prefix and digits, then anything that is no digit. */
  function NumberText(space: seq<byte>, sign: seq<byte>, prefix: seq<byte>, digits: seq<byte>, rest: seq<byte>)
    : seq<byte>
  {
    space + (sign + (prefix + (digits + rest)))
  }

  /**
    A size line of that form is the signed number, if it fits an int. (A lone 0 before an x and a digit
    is a prefix and not a number.)
    */
  lemma {:induction false} NumberLine(space: seq<byte>, sign: seq<byte>, prefix: seq<byte>, digits: seq<byte>,
                                      vs: seq<nat>, rest: seq<byte>)
    requires forall b :: b in space ==> b in {9, 10, 11, 12, 13, 32}
    requires sign in {[], [43], [45]} && prefix in {[], [48, 120], [48, 88]}
    requires digits != [] && Spells(digits, vs) && NoHexAhead(rest)
    requires !(prefix == [] && digits == [48] && |rest| >= 2 && rest[0] in {120, 88} && !NoHexAhead(rest[1..]))
    ensures var magnitude: int := Number(vs);
            var n := if sign == [45] then -magnitude else magnitude;
            Stoi16(NumberText(space, sign, prefix, digits, rest)) ==
            if -0x8000_0000 <= n < 0x8000_0000 then Some(n) else None
  {
    var t := prefix + (digits + rest);
    hide HexDigit, HexRun, SkipSpace, Number, Spells, NoHexAhead, StartsHex, IsSpace, Unsigned, Unprefixed;
    PrefixDropped(prefix, digits, vs, rest);
    SignDropped(sign, t);
    SpaceSkipped(space, sign + t);
  }

  lemma {:induction false} SignDropped(sign: seq<byte>, t: seq<byte>)
    requires sign in {[], [43], [45]} && t != [] && (t[0] in LOWER || t[0] in UPPER)
    ensures var s := sign + t; !IsSpace(s[0]) && (s[0] == 45 <==> sign == [45]) && Unsigned(s) == t
  {
    HexByTable(t[0]);
    assert (sign + t)[|sign|..] == t;
    if sign == [] { assert sign + t == t; }
  }

  lemma {:induction false} PrefixDropped(prefix: seq<byte>, digits: seq<byte>, vs: seq<nat>, rest: seq<byte>)
    requires prefix in {[], [48, 120], [48, 88]}
    requires digits != [] && Spells(digits, vs) && NoHexAhead(rest)
    requires !(prefix == [] && digits == [48] && |rest| >= 2 && rest[0] in {120, 88} && !NoHexAhead(rest[1..]))
    ensures Unprefixed(prefix + (digits + rest)) == digits + rest
    ensures StartsHex(digits + rest) && HexRun(digits + rest, 0) == Number(vs)
    ensures (prefix + (digits + rest))[0] in LOWER || (prefix + (digits + rest))[0] in UPPER
  {
    var t := prefix + (digits + rest);
    assert digits[0] == LOWER[vs[0]] || digits[0] == UPPER[vs[0]];
    HexByTable(digits[0]);
    HexRunOfDigits(digits, vs, rest);
    hide HexRun, Number;
    if prefix != [] {
      assert t[2..] == digits + rest && t[0] == 48 == LOWER[0];
    } else {
      assert t == digits + rest;
      if |t| > 2 && t[0] == 48 && (t[1] == 120 || t[1] == 88) { NoPrefix(digits, vs, rest); }
    }
  }

  lemma {:induction false} DigitsAreHex(s: seq<byte>, vs: seq<nat>)
    requires Spells(s, vs)
    ensures forall i :: 0 <= i < |s| ==> HexDigit(s[i]) == Some(vs[i])
  {
    forall i | 0 <= i < |s| ensures HexDigit(s[i]) == Some(vs[i]) { HexByTable(s[i]); }
    hide HexDigit;
  }

  lemma {:induction false} NoPrefix(digits: seq<byte>, vs: seq<nat>, rest: seq<byte>)
    requires digits != [] && Spells(digits, vs) && digits[0] == 48
    requires |digits + rest| > 2 && (digits + rest)[1] in {120, 88}
    requires !(digits == [48] && |rest| >= 2 && rest[0] in {120, 88} && !NoHexAhead(rest[1..]))
    ensures !StartsHex((digits + rest)[2..])
  {
    DigitsAreHex(digits, vs);
    if |digits| == 1 {
      assert digits == [48] && (digits + rest)[2..] == rest[1..];
      HexByTable(rest[1]);
    }
  }

  /** Without a digit behind white space and sign it is no number. */
  lemma {:induction false} NoNumberLine(space: seq<byte>, sign: seq<byte>, rest: seq<byte>)
    requires forall b :: b in space ==> b in {9, 10, 11, 12, 13, 32}
    requires sign in {[], [43], [45]} && NoHexAhead(rest)
    requires sign == [] ==> rest == [] || rest[0] !in {9, 10, 11, 12, 13, 32, 43, 45}
    ensures Stoi16(space + (sign + rest)) == None
  {
    SpaceSkipped(space, sign + rest);
    assert (sign + rest)[|sign|..] == rest;
    if rest != [] { HexByTable(rest[0]); }
  }

  lemma {:induction false} HexByTable(b: byte)
    ensures b in LOWER || b in UPPER <==> HexDigit(b).Some?
    ensures forall v: nat :: v < 16 && (b == LOWER[v] || b == UPPER[v]) ==> HexDigit(b) == Some(v)
    ensures HexDigit(b).Some? ==> !IsSpace(b) && b != 43 && b != 45
  {
  }

  lemma {:induction false} SpaceSkipped(space: seq<byte>, s: seq<byte>)
    requires forall b :: b in space ==> b in {9, 10, 11, 12, 13, 32}
    requires s == [] || !IsSpace(s[0])
    ensures SkipSpace(space + s) == s
    decreases |space|
  {
    if space == [] {
      assert space + s == s;
    } else {
      assert (space + s)[0] == space[0] && (space + s)[1..] == space[1..] + s && space[0] in space;
      assert forall b :: b in space[1..] ==> b in space;
      SpaceSkipped(space[1..], s);
    }
  }

  lemma {:induction false} HexRunOfDigits(s: seq<byte>, vs: seq<nat>, rest: seq<byte>)
    requires Spells(s, vs) && NoHexAhead(rest)
    ensures HexRun(s + rest, 0) == Number(vs)
    decreases |s|
  {
    HexRunSplit(s, vs, rest, 0);
    RunIsNumber(s, vs);
  }

  lemma {:induction false} HexRunSplit(s: seq<byte>, vs: seq<nat>, rest: seq<byte>, acc: nat)
    requires Spells(s, vs) && NoHexAhead(rest)
    ensures HexRun(s + rest, acc) == HexRun(s, acc)
    decreases |s|
  {
    if s == [] {
      assert s + rest == rest;
      if rest != [] { HexByTable(rest[0]); }
    } else {
      assert (s + rest)[0] == s[0] && (s + rest)[1..] == s[1..] + rest;
      DigitsAreHex(s, vs);
      SpellsTail(s, vs);
      HexRunSplit(s[1..], vs[1..], rest, 16 * acc + vs[0]);
    }
    hide HexDigit, Spells, NoHexAhead;
  }

  lemma {:induction false} SpellsTail(s: seq<byte>, vs: seq<nat>)
    requires s != [] && Spells(s, vs)
    ensures vs != [] && Spells(s[1..], vs[1..])
  {
    forall i | 0 <= i < |s[1..]|
      ensures vs[1..][i] < 16 && (s[1..][i] == LOWER[vs[1..][i]] || s[1..][i] == UPPER[vs[1..][i]])
    {
      assert s[1..][i] == s[i + 1] && vs[1..][i] == vs[i + 1];
    }
  }

  lemma {:induction false} RunIsNumber(s: seq<byte>, vs: seq<nat>)
    requires Spells(s, vs)
    ensures HexRun(s, 0) == Number(vs)
    decreases |s|
  {
    if s != [] {
      var n := |s| - 1;
      RunIsNumber(s[..n], vs[..n]);
      DigitsAreHex(s, vs);
      HexRunAppend(s[..n], s[n], 0);
      assert s == s[..n] + [s[n]];
    }
  }

  /** Without its carriage return and line feed no line or trailer is taken, whatever else is there. */
  lemma {:induction false} WaitsForLineEnd(c: Client)
    requires !c.stopped
    requires c.state == ChunkLen ==> forall k :: 0 <= k < |c.buffer| - 1 ==> c.buffer[k] != 13 || c.buffer[k + 1] != 10
    requires c.state == ChunkTrailer || c.state == ChunkLast ==>
               |c.buffer| < 2 || c.buffer[0] != 13 || c.buffer[1] != 10
    requires c.state == ChunkContent ==> c.buffer == [] && c.chunkReceive < c.chunkSize
    ensures c.state != Done ==> Settle(c) == c
  {
    assert FindCrlf(c.buffer) < |c.buffer| ==> CrlfAt(c.buffer, FindCrlf(c.buffer));
    if c.state == ChunkContent { assert c.buffer[..0] == [] && c.body + [] == c.body && c.buffer[0..] == c.buffer; }
  }

  /** A negative size is a size_t close to 2^64: all that follows is taken for content. */
  lemma {:induction false} NegativeSize(c: Client, line: seq<byte>, n: int, rest: seq<byte>)
    requires !c.stopped && c.state == ChunkLen && c.buffer == line + CRLF + rest && FindCrlf(c.buffer) == |line|
    requires Stoi16(line) == Some(n) && n < 0 && |rest| < 0x1_0000_0000_0000_0000 + n
    ensures Settle(c) == c.(state := ChunkContent, body := c.body + rest, buffer := [],
                            chunkSize := 0x1_0000_0000_0000_0000 + n, chunkReceive := |rest|)
  {
    hide Stoi16;
    assert c.buffer[..|line|] == line && c.buffer[|line| + 2..] == rest;
    var d := c.(state := ChunkContent, buffer := rest, chunkSize := 0x1_0000_0000_0000_0000 + n, chunkReceive := 0);
    assert Step(c) == Again(d);
    assert rest[..|rest|] == rest && rest[|rest|..] == [];
  }

  /** A size line that is no number, or none that fits, ends the reading where it stands. */
  lemma {:induction false} BadLineStops(c: Client, line: seq<byte>, rest: seq<byte>)
    requires !c.stopped && c.state == ChunkLen && c.buffer == line + CRLF + rest && FindCrlf(c.buffer) == |line|
    requires Stoi16(line) == None
    ensures Settle(c) == c.(stopped := true, chunkReceive := 0, buffer := rest)
  {
    assert c.buffer[..|line|] == line && c.buffer[|line| + 2..] == rest;
  }

}
