/** The builder and the parser as they run: an appending buffer, and decoders that advance an offset. */
module EtfCodec {
  import opened Bytes
  import opened EtfTerm
  import opened EtfDecode
  import opened EtfRoundTrip

  // ---------------------------------------------------------------- etf_buffer

  class EtfBuffer {
    var buf: array<byte>
    var length: nat

    ghost predicate Valid()
      reads this
    {
      length <= buf.Length
    }

    ghost function Contents(): bytes
      requires Valid()
      reads this, buf
    {
      buf[..length]
    }

    constructor (initial: nat)
      ensures Valid() && fresh(buf) && Contents() == []
    {
      buf, length := new byte[initial], 0;
    }

    /** `buffer_write`: doubles the storage when the bytes do not fit. */
    method Write(s: bytes)
      requires Valid()
      modifies this, buf
      ensures Valid() && (buf == old(buf) || fresh(buf))
      ensures Contents() == old(Contents()) + s
    {
      ghost var before := Contents();
      if length + |s| > buf.Length {
        var grown := new byte[(length + |s|) * 2];
        forall i | 0 <= i < length { grown[i] := buf[i]; }
        buf := grown;
        assert Contents() == before;
      }
      forall i | 0 <= i < |s| { buf[length + i] := s[i]; }
      length := length + |s|;
      assert Contents()[..|before|] == before;
    }
  }

  // ---------------------------------------------------------------- builder

  /** The digit loop of `append_unsigned_long_long`. */
  method Digits256(d: nat) returns (digits: bytes)
    ensures digits == Le(d)
  {
    var rest := d;
    digits := [];
    while rest > 0
      invariant digits + Le(rest) == Le(d)
    {
      assert digits + ([rest % 256] + Le(rest / 256)) == (digits + [rest % 256]) + Le(rest / 256);
      digits := digits + [rest % 256];
      rest := rest / 256;
    }
    assert digits + [] == digits;
  }

  method AppendInt(n: int, b: EtfBuffer)
    requires b.Valid()
    modifies b, b.buf
    ensures b.Valid() && (b.buf == old(b.buf) || fresh(b.buf)) && b.Contents() == old(b.Contents()) + EncodeInt(n)
  {
    var number := ToInt64(n);
    if 0 <= number <= 127 {
      b.Write([SMALL_INT, number]);
    } else if number >= TWO_32 - 2 {
      var digits := Digits256(number);
      b.Write([BIGINT_SMALL, |digits| % 256, 0] + digits);
    } else {
      b.Write([INTEGER] + Be(number % TWO_32, 4));
    }
  }

  /** `inner_build`; false is the "too large" exception. */
  method InnerBuild(j: Json, b: EtfBuffer) returns (ok: bool)
    requires b.Valid()
    modifies b, b.buf
    ensures b.Valid() && (b.buf == old(b.buf) || fresh(b.buf))
    ensures ok <==> !TooLarge(j)
    ensures ok ==> b.Contents() == old(b.Contents()) + Encode(j)
    decreases j, 1
  {
    match j
    case Null => b.Write(NIL_ATOM); return true;
    case Bool(v) => b.Write(if v then TRUE_ATOM else FALSE_ATOM); return true;
    case Int(n) => AppendInt(n, b); return true;
    case Float(bits) => b.Write([NEW_FLOAT] + Be(bits, 8)); return true;
    case Str(s) => b.Write(EncodeStr(s)); return true;
    case Arr(items) => ok := BuildArray(items, b);
    case Obj(fields) => ok := BuildObject(fields, b);
  }

  method BuildArray(items: seq<Json>, b: EtfBuffer) returns (ok: bool)
    requires b.Valid()
    modifies b, b.buf
    ensures b.Valid() && (b.buf == old(b.buf) || fresh(b.buf))
    ensures ok <==> !TooLarge(Arr(items))
    ensures ok ==> b.Contents() == old(b.Contents()) + Encode(Arr(items))
    decreases items, 0
  {
    hide Encode, Be;
    ghost var start := b.Contents();
    if |items| == 0 {
      b.Write([NIL]);
    } else if |items| > MAX_COUNT {
      return false;
    }
    b.Write([LIST] + Be(|items|, 4));
    ghost var head := ListHeader(|items|);
    ghost var from := start + head;
    assert b.Contents() == from;
    for index := 0 to |items|
      invariant b.Valid() && (b.buf == old(b.buf) || fresh(b.buf))
      invariant b.Contents() + EncodeItems(items[index..]) == from + EncodeItems(items)
      invariant ItemsTooLarge(items) == ItemsTooLarge(items[index..])
    {
      ghost var before, tail := b.Contents(), items[index + 1..];
      assert items[index..][0] == items[index] && items[index..][1..] == tail;
      ok := InnerBuild(items[index], b);
      if !ok { return false; }
      Assoc(before, Encode(items[index]), EncodeItems(tail));
    }
    AppendNothing(b.Contents());
    b.Write([NIL]);
    ArrayParts(start, items);
    return true;
  }

  lemma {:induction false} ArrayParts(start: bytes, items: seq<Json>)
    ensures (start + ListHeader(|items|)) + EncodeItems(items) + [NIL] == start + Encode(Arr(items))
  {
    Assoc(start, ListHeader(|items|), EncodeItems(items) + [NIL]);
    Assoc(start + ListHeader(|items|), EncodeItems(items), [NIL]);
  }

  lemma {:induction false} Assoc(a: bytes, b: bytes, c: bytes)
    ensures (a + b) + c == a + (b + c)
  {
  }

  lemma {:induction false} AppendNothing(a: bytes)
    ensures a + [] == a
  {
  }

  method BuildObject(fields: seq<Field>, b: EtfBuffer) returns (ok: bool)
    requires b.Valid()
    modifies b, b.buf
    ensures b.Valid() && (b.buf == old(b.buf) || fresh(b.buf))
    ensures ok <==> !TooLarge(Obj(fields))
    ensures ok ==> b.Contents() == old(b.Contents()) + Encode(Obj(fields))
    decreases fields, 0
  {
    hide Encode, EncodeStr, Be;
    if |fields| > MAX_COUNT { return false; }
    ghost var start := b.Contents();
    ghost var from := start + ([MAP] + Be(|fields|, 4));
    b.Write([MAP] + Be(|fields|, 4));
    for index := 0 to |fields|
      invariant b.Valid() && (b.buf == old(b.buf) || fresh(b.buf))
      invariant b.Contents() + EncodeFields(fields[index..]) == from + EncodeFields(fields)
      invariant FieldsTooLarge(fields) == FieldsTooLarge(fields[index..])
    {
      ghost var before, tail := b.Contents(), fields[index + 1..];
      var key, value := fields[index].key, fields[index].value;
      assert fields[index..][0] == fields[index] && fields[index..][1..] == tail;
      b.Write(EncodeStr(key));
      ok := InnerBuild(value, b);
      if !ok { return false; }
      Assoc(before, EncodeStr(key), Encode(value) + EncodeFields(tail));
      Assoc(before + EncodeStr(key), Encode(value), EncodeFields(tail));
    }
    AppendNothing(b.Contents());
    ObjectParts(start, fields);
    return true;
  }

  lemma {:induction false} ObjectParts(start: bytes, fields: seq<Field>)
    ensures (start + ([MAP] + Be(|fields|, 4))) + EncodeFields(fields) == start + Encode(Obj(fields))
  {
    Assoc(start, [MAP] + Be(|fields|, 4), EncodeFields(fields));
  }

  /** `build`: the version byte and the value; None is the exception. */
  method Build(j: Json) returns (s: Option<bytes>)
    ensures s == if TooLarge(j) then None else Some([FORMAT_VERSION] + Encode(j))
  {
    var pk := new EtfBuffer(1024 * 1024);
    pk.Write([FORMAT_VERSION]);
    assert pk.Contents() == [FORMAT_VERSION];
    var ok := InnerBuild(j, pk);
    s := if ok then Some(pk.buf[..pk.length]) else None;
  }

  // ---------------------------------------------------------------- parser

  datatype Outcome<+T> = Value(v: T) | Thrown(e: Error) {
    predicate IsFailure() { Thrown? }
    function PropagateFailure<U>(): Outcome<U> requires Thrown? { Thrown(e) }
    function Extract(): T requires Value? { v }
  }

  /** Result and offset of a run are those of the specification. */
  ghost predicate Agrees<T(!new)>(p: Parsed<T>, r: Outcome<T>, offset: nat) {
    match p
    case Ok(value, next) => r == Value(value) && offset == next
    case Fail(error) => r == Thrown(error)
  }

  class EtfParser {
    const host: Host
    var data: bytes
    var offset: nat

    constructor (host: Host)
      ensures this.host == host
    {
      this.host, data, offset := host, [], 0;
    }

    /** `read_8_bits` to `read_64_bits`. */
    method Read(k: nat) returns (r: Outcome<nat>)
      modifies this`offset
      ensures Agrees(ReadNum(data, old(offset), k), r, offset)
      ensures if r.Thrown? then offset == old(offset) else offset == old(offset) + k <= |data|
      ensures r.Value? ==> r.v < Pow256(k)
    {
      if offset + k > |data| { return Thrown(PastEnd); }
      var value := FromBe(data[offset..offset + k]);
      FromBeRange(data[offset..offset + k]);
      offset := offset + k;
      r := Value(value);
    }

    method ReadText(length: nat) returns (s: Option<bytes>)
      requires offset <= |data|
      modifies this`offset
      ensures (s, offset) == ReadString(data, old(offset), length)
    {
      if offset + length > |data| { return None; }
      s := Some(data[offset..offset + length]);
      offset := offset + length;
    }

    /** `decode_bigint` */
    method ParseBigInt(digits: nat) returns (r: Outcome<Json>)
      requires offset <= |data|
      modifies this`offset
      ensures Agrees(DecodeBigInt(data, old(offset), digits), r, offset)
      ensures old(offset) <= offset <= |data|
    {
      Powers();
      hide BigIntText, FromBe, FromLe, Pow256;
      var sign :- Read(1);
      if digits > 8 { return Thrown(BigIntTooLarge); }
      var value :- ReadDigits(digits);
      return Value(Str(BigIntText(sign, value)));
    }

    /** Its digit loop: one byte at a time, scaled by growing powers of 256. */
    method ReadDigits(digits: nat) returns (r: Outcome<nat>)
      requires offset <= |data|
      modifies this`offset
      ensures old(offset) <= offset <= |data|
      ensures if old(offset) + digits > |data| then r == Thrown(PastEnd)
              else offset == old(offset) + digits && r == Value(FromLe(data[old(offset)..old(offset) + digits]))
    {
      hide FromBe, FromLe, Pow256;
      var value, b, i := 0, 1, 0;
      ghost var start := offset;
      NoDigits(data, start);
      while i < digits
        invariant i <= digits && offset == start + i && offset <= |data|
        invariant b == Pow256(i) && value == FromLe(data[start..start + i])
      {
        var digit :- Read(1);
        DigitStep(data, start, i);
        value := value + digit * b;
        b := b * 256;
        i := i + 1;
      }
      return Value(value);
    }

    method ParseLeaf(tag: byte) returns (r: Outcome<Json>)
      requires offset <= |data|
      modifies this`offset
      ensures Agrees(DecodeLeaf(host, data, tag, old(offset)), r, offset)
      ensures old(offset) <= offset <= |data|
    {
      Powers();
      if tag == SMALL_INT {
        var n :- Read(1);
        r := Value(Int(n));
      } else if tag == INTEGER {
        var n :- Read(4);
        r := Value(Int(Signed32(n)));
      } else if tag == FLOAT_TEXT {
        var text := ReadText(31);
        var bits := if text.None? then None else host.scanDouble(text.value);
        r := Value(if bits.Some? then Float(bits.value) else Null);
      } else if tag == NEW_FLOAT {
        var bits :- Read(8);
        r := Value(Float(bits));
      } else if tag == ATOM || tag == ATOM_SMALL {
        var length :- Read(if tag == ATOM then 2 else 1);
        var atom := ReadText(length);
        r := Value(ProcessAtom(atom));
      } else if tag == NIL {
        r := Value(Arr([]));
      } else if tag == STRING {
        var length :- Read(2);
        if offset + length > |data| { return Thrown(PastEnd); }
        var items := Ints(data[offset..offset + length]);
        offset := offset + length;
        r := Value(Arr(items));
      } else if tag == BINARY {
        var length :- Read(4);
        var text := ReadText(length);
        r := Value(TextOrNull(text));
      } else if tag == BIGINT_SMALL || tag == BIGINT_LARGE {
        var digits :- Read(if tag == BIGINT_SMALL then 1 else 4);
        r := ParseBigInt(digits);
      } else if tag == DISTRIBUTION {
        r := Thrown(Distribution);
      } else if tag == COMPRESSED {
        r := Thrown(Unsupported);
      } else {
        r := Thrown(UnknownType);
      }
    }

    /** `inner_parse` */
    method InnerParse() returns (r: Outcome<Json>)
      requires offset <= |data|
      modifies this`offset
      ensures Agrees(Decode(host, data, old(offset)), r, offset)
      ensures old(offset) <= offset <= |data|
      decreases |data| - offset, 0
    {
      Powers();
      var tag :- Read(1);
      if IsCompound(tag) {
        r := ParseCompound(tag);
      } else {
        r := ParseLeaf(tag);
      }
    }

    method ParseIds(n: nat) returns (r: Outcome<seq<Json>>)
      requires offset <= |data|
      modifies this`offset
      ensures Agrees(ReadIds(data, old(offset), n), r, offset)
      ensures old(offset) <= offset <= |data|
    {
      Powers();
      var ids, i := [], 0;
      ghost var all := ReadIds(data, offset, n);
      if all.Ok? { assert [] + all.value == all.value; }
      while i < n
        invariant i <= n && old(offset) <= offset <= |data|
        invariant var rest := ReadIds(data, offset, n - i);
                  ReadIds(data, old(offset), n) ==
                  if rest.Fail? then Fail(rest.error) else Ok(ids + rest.value, rest.next)
      {
        ghost var rest := ReadIds(data, offset, n - i);
        var id :- Read(4);
        if rest.Ok? {
          assert ids + ([Int(Signed32(id))] + rest.value[1..]) == (ids + [Int(Signed32(id))]) + rest.value[1..];
        }
        ids := ids + [Int(Signed32(id))];
        i := i + 1;
      }
      assert ids + [] == ids;
      return Value(ids);
    }

    /** `decode_array` */
    method ParseArray(n: nat) returns (r: Outcome<seq<Json>>)
      requires offset <= |data|
      modifies this`offset
      ensures Agrees(DecodeArray(host, data, old(offset), n), r, offset)
      ensures old(offset) <= offset <= |data|
      decreases |data| - offset, 1
    {
      hide Decode, DecodeCompound, DecodeLeaf;
      var items, i := [], 0;
      ghost var all := DecodeArray(host, data, offset, n);
      if all.Ok? { assert [] + all.value == all.value; }
      while i < n
        invariant i <= n && old(offset) <= offset <= |data|
        invariant var rest := DecodeArray(host, data, offset, n - i);
                  DecodeArray(host, data, old(offset), n) ==
                  if rest.Fail? then Fail(rest.error) else Ok(items + rest.value, rest.next)
      {
        ghost var here := offset;
        var item :- InnerParse();
        DecodesItem(host, data, here, n - i, item, offset);
        ghost var rest := DecodeArray(host, data, offset, n - i - 1);
        if rest.Ok? { assert items + ([item] + rest.value) == (items + [item]) + rest.value; }
        items := items + [item];
        i := i + 1;
      }
      assert items + [] == items;
      return Value(items);
    }

    /** The loop of `decode_map`. */
    method ParseFields(n: nat) returns (r: Outcome<seq<Field>>)
      requires offset <= |data|
      modifies this`offset
      ensures Agrees(DecodeFields(host, data, old(offset), n, []), r, offset)
      ensures old(offset) <= offset <= |data|
      decreases |data| - offset, 1
    {
      hide Decode, DecodeCompound, DecodeLeaf;
      var fields, i := [], 0;
      while i < n
        invariant i <= n && old(offset) <= offset <= |data|
        invariant DecodeFields(host, data, old(offset), n, []) == DecodeFields(host, data, offset, n - i, fields)
      {
        var key :- InnerParse();
        var text := KeyText(host, key);
        if text.None? { return Thrown(BadKey); }
        var value :- InnerParse();
        fields := Emplace(fields, text.value, value);
        i := i + 1;
      }
      return Value(fields);
    }

    method ParseList() returns (r: Outcome<Json>)
      requires offset <= |data|
      modifies this`offset
      ensures Agrees(DecodeList(host, data, old(offset)), r, offset)
      ensures old(offset) <= offset <= |data|
      decreases |data| - offset, 1
    {
      var n :- Read(4);
      var items :- ParseArray(n);
      var tail :- Read(1);
      r := Value(if tail == NIL then Arr(items) else Null);
    }

    method ParseCompound(tag: byte) returns (r: Outcome<Json>)
      requires offset <= |data| && IsCompound(tag)
      modifies this`offset
      ensures Agrees(DecodeCompound(host, data, tag, old(offset)), r, offset)
      ensures old(offset) <= offset <= |data|
      decreases |data| - offset, 3
    {
      hide Decode, DecodeArray, DecodeFields, DecodeList, DecodeLeaf, ReadIds, ReadNum, FromBe;
      if tag == SMALL_TUPLE || tag == LARGE_TUPLE {
        var n :- Read(if tag == SMALL_TUPLE then 1 else 4);
        var items :- ParseArray(n);
        r := Value(Arr(items));
      } else if tag == LIST {
        r := ParseList();
      } else if tag == MAP {
        var n :- Read(4);
        var fields :- ParseFields(n);
        r := Value(if n == 0 then Null else Obj(fields));
      } else {
        r := ParseRecord(tag);
      }
    }

    /** References, ports, pids and exports: objects with fixed fields. */
    method ParseRecord(tag: byte) returns (r: Outcome<Json>)
      requires offset <= |data| && tag in {REFERENCE, NEW_REFERENCE, PORT, PID, EXPORT}
      modifies this`offset
      ensures Agrees(DecodeCompound(host, data, tag, old(offset)), r, offset)
      ensures old(offset) <= offset <= |data|
      decreases |data| - offset, 2
    {
      hide Decode, DecodeArray, DecodeFields, DecodeList, DecodeLeaf, ReadIds, ReadNum, FromBe;
      if tag == REFERENCE {
        var node :- InnerParse();
        var ids :- ParseIds(1);
        var creation :- Read(1);
        r := Value(Obj([Field(CREATION, Int(creation)), Field(ID, Arr(ids)), Field(NODE, node)]));
      } else if tag == NEW_REFERENCE {
        var n :- Read(2);
        var node :- InnerParse();
        var creation :- Read(1);
        var ids :- ParseIds(n);
        r := Value(Obj([Field(CREATION, Int(creation)), Field(ID, Arr(ids)), Field(NODE, node)]));
      } else if tag == PORT {
        var node :- InnerParse();
        var id :- Read(4);
        var creation :- Read(1);
        r := Value(Obj([Field(CREATION, Int(creation)), Field(ID, Int(id)), Field(NODE, node)]));
      } else if tag == PID {
        var node :- InnerParse();
        var id :- Read(4);
        var serial :- Read(4);
        var creation :- Read(1);
        r := Value(Obj([Field(CREATION, Int(creation)), Field(ID, Int(id)), Field(NODE, node),
                        Field(SERIAL, Int(serial))]));
      } else {
        var module_ :- InnerParse();
        var fun :- InnerParse();
        var arity :- InnerParse();
        r := Value(Obj([Field(ARITY, arity), Field(FUN, fun), Field(MOD, module_)]));
      }
    }

    /** `parse`: terminates on every input, inside the input. */
    method ParseAll(input: bytes) returns (r: Outcome<Json>)
      modifies this
      ensures data == input
      ensures Agrees(Parse(host, input), r, offset)
      ensures offset <= |input| && (r.Value? ==> 2 <= offset)
    {
      offset, data := 0, input;
      var version :- Read(1);
      if version == FORMAT_VERSION {
        r := InnerParse();
      } else {
        r := Thrown(BadVersion);
      }
    }
  }

  lemma {:induction false} NoDigits(d: bytes, from: nat)
    requires from <= |d|
    ensures FromLe(d[from..from]) == 0 && Pow256(0) == 1
  {
  }

  lemma {:induction false} DigitStep(d: bytes, from: nat, i: nat)
    requires from + i < |d|
    ensures ReadNum(d, from + i, 1) == Ok(d[from + i], from + i + 1)
    ensures FromLe(d[from..from + i + 1]) == FromLe(d[from..from + i]) + d[from + i] * Pow256(i)
    ensures Pow256(i + 1) == Pow256(i) * 256
  {
    ReadDigit(d, from + i);
    FromLeAppend(d[from..from + i], d[from + i]);
    assert d[from..from + i + 1] == d[from..from + i] + [d[from + i]];
  }

  lemma {:induction false} ReadDigit(d: bytes, off: nat)
    requires off < |d|
    ensures ReadNum(d, off, 1) == Ok(d[off], off + 1)
  {
    assert d[off..off + 1] == [d[off]];
    ReadsByte(d, off, d[off]);
  }

  lemma {:induction false} FromLeAppend(s: bytes, x: byte)
    ensures FromLe(s + [x]) == FromLe(s) + x * Pow256(|s|)
  {
    if s == [] {
      assert [] + [x] == [x] && [x][1..] == [];
    } else {
      FromLeAppend(s[1..], x);
      assert (s + [x])[1..] == s[1..] + [x];
      assert 256 * (x * Pow256(|s| - 1)) == x * (256 * Pow256(|s| - 1));
    }
  }
}
