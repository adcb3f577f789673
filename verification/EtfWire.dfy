/**
  What the parser makes of every inbound form of the Erlang External Term Format, among them those the
  builder never writes. `WireOf` lays the forms out by the tag numbers and field widths of the
  "External Term Format" chapter of the Erlang/OTP ERTS User's Guide; `Meaning` is the JSON value.
  */
module EtfWire {
  import opened Bytes
  import opened EtfTerm
  import opened EtfDecode
  import opened EtfRoundTrip

  datatype Term =
    | SmallInt(n: int) | Integer(n: int) | NewFloat(bits: nat) | FloatText(text: bytes)
    | Atom(name: bytes) | SmallAtom(name: bytes)
    | Nil | Chars(chars: bytes) | Binary(text: bytes)
    | SmallBig(sign: byte, digits: bytes) | LargeBig(sign: byte, digits: bytes)
    | SmallTuple(items: seq<Term>) | LargeTuple(items: seq<Term>)
    | List(items: seq<Term>, tail: byte) | Map(pairs: seq<Pair>)
    | Reference(node: Term, id: nat, creation: byte)
    | NewReference(node: Term, creation: byte, ids: seq<nat>)
    | Port(node: Term, id: nat, creation: byte)
    | Pid(node: Term, id: nat, serial: nat, creation: byte)
    | Export(mod: Term, fun: Term, arity: Term)

  datatype Pair = Pair(key: Term, value: Term)

  /** The counts and numbers fit their fields. */
  ghost predicate Fits(h: Host, t: Term)
    decreases t, 1
  {
    match t
    case SmallInt(n) => 0 <= n < 0x100
    case Integer(n) => -0x8000_0000 <= n < 0x8000_0000
    case NewFloat(bits) => bits < 0x1_0000_0000_0000_0000
    case FloatText(text) => |text| == 31
    case Atom(name) => |name| < 0x1_0000
    case SmallAtom(name) => |name| < 0x100
    case Nil => true
    case Chars(chars) => |chars| < 0x1_0000
    case Binary(text) => |text| < 0x1_0000_0000
    case SmallBig(_, digits) => |digits| <= 8
    case LargeBig(_, digits) => |digits| <= 8
    case SmallTuple(items) => |items| < 0x100 && AllFit(h, items)
    case LargeTuple(items) => |items| < 0x1_0000_0000 && AllFit(h, items)
    case List(items, _) => |items| < 0x1_0000_0000 && AllFit(h, items)
    case Map(pairs) => |pairs| < 0x1_0000_0000 && PairsFit(h, pairs)
    case Reference(node, id, _) => Fits(h, node) && id < 0x1_0000_0000
    case NewReference(node, _, ids) =>
      Fits(h, node) && |ids| < 0x1_0000 && forall id :: id in ids ==> id < 0x1_0000_0000
    case Port(node, id, _) => Fits(h, node) && id < 0x1_0000_0000
    case Pid(node, id, serial, _) => Fits(h, node) && id < 0x1_0000_0000 && serial < 0x1_0000_0000
    case Export(mod, fun, arity) => Fits(h, mod) && Fits(h, fun) && Fits(h, arity)
  }

  ghost predicate AllFit(h: Host, items: seq<Term>)
    decreases items, 0
  {
    items == [] || (Fits(h, items[0]) && AllFit(h, items[1..]))
  }

  /** A key is a text or a number. */
  ghost predicate PairsFit(h: Host, pairs: seq<Pair>)
    decreases pairs, 0
  {
    pairs == [] || (PairFits(h, pairs[0]) && PairsFit(h, pairs[1..]))
  }

  ghost predicate PairFits(h: Host, p: Pair)
    decreases p
  {
    Fits(h, p.key) && Fits(h, p.value) && IsKey(h, p.key)
  }

  predicate IsKey(h: Host, t: Term) {
    match t
    case SmallInt(_) => true
    case Integer(_) => true
    case NewFloat(_) => true
    case FloatText(text) => h.scanDouble(text).Some?
    case Binary(_) => true
    case SmallBig(_, _) => true
    case LargeBig(_, _) => true
    case Atom(name) => !IsWord(name)
    case SmallAtom(name) => !IsWord(name)
    case _ => false
  }

  /** The atoms nil, null, true and false. */
  predicate IsWord(name: bytes) {
    name == [110, 105, 108] || name == [110, 117, 108, 108]
    || name == [116, 114, 117, 101] || name == [102, 97, 108, 115, 101]
  }

  function Tagged(tag: byte, body: bytes): bytes { [tag] + body }

  /** The layout, field by field. */
  function WireOf(t: Term): (s: bytes)
    ensures |s| >= 1
    decreases t, 1
  {
    match t
    case SmallInt(n) => Tagged(97, [n % 256])
    case Integer(n) => Tagged(98, Be(n % 0x1_0000_0000, 4))
    case FloatText(text) => Tagged(99, text)
    case Atom(name) => Tagged(100, Be(|name|, 2) + name)
    case Reference(node, id, creation) => Tagged(101, WireOf(node) + (Be(id, 4) + [creation]))
    case Port(node, id, creation) => Tagged(102, WireOf(node) + (Be(id, 4) + [creation]))
    case Pid(node, id, serial, creation) => Tagged(103, WireOf(node) + (Be(id, 4) + (Be(serial, 4) + [creation])))
    case SmallTuple(items) => Tagged(104, [|items| % 256] + WireOfAll(items))
    case LargeTuple(items) => Tagged(105, Be(|items|, 4) + WireOfAll(items))
    case Nil => Tagged(106, [])
    case Chars(chars) => Tagged(107, Be(|chars|, 2) + chars)
    case List(items, tail) => Tagged(108, Be(|items|, 4) + (WireOfAll(items) + [tail]))
    case Binary(text) => Tagged(109, Be(|text|, 4) + text)
    case SmallBig(sign, digits) => Tagged(110, [|digits| % 256] + ([sign] + digits))
    case LargeBig(sign, digits) => Tagged(111, Be(|digits|, 4) + ([sign] + digits))
    case Export(mod, fun, arity) => Tagged(113, WireOf(mod) + (WireOf(fun) + WireOf(arity)))
    case NewReference(node, creation, ids) =>
      Tagged(114, Be(|ids|, 2) + (WireOf(node) + ([creation] + WireOfIds(ids))))
    case SmallAtom(name) => Tagged(115, [|name| % 256] + name)
    case Map(pairs) => Tagged(116, Be(|pairs|, 4) + WireOfPairs(pairs))
    case NewFloat(bits) => Tagged(70, Be(bits, 8))
  }

  function WireOfAll(items: seq<Term>): bytes
    decreases items, 0
  {
    if items == [] then [] else WireOf(items[0]) + WireOfAll(items[1..])
  }

  function WireOfPairs(pairs: seq<Pair>): bytes
    decreases pairs, 0
  {
    if pairs == [] then [] else WireOfPair(pairs[0]) + WireOfPairs(pairs[1..])
  }

  function WireOfPair(p: Pair): bytes
    decreases p
  {
    WireOf(p.key) + WireOf(p.value)
  }

  function WireOfIds(ids: seq<nat>): bytes {
    if ids == [] then [] else Be(ids[0], 4) + WireOfIds(ids[1..])
  }

  // ---------------------------------------------------------------- meaning

  function WordOrText(name: bytes): Json {
    if name == [110, 105, 108] || name == [110, 117, 108, 108] then Null
    else if name == [116, 114, 117, 101] then Bool(true)
    else if name == [102, 97, 108, 115, 101] then Bool(false)
    else Str(name)
  }

  /** A sign other than 0 negates the value as an int64_t. */
  function BigText(sign: byte, digits: bytes): bytes {
    var v: int := FromLe(digits);
    if sign == 0 then Decimal(v)
    else if v <= 0x8000_0000_0000_0000 then Decimal(-v)
    else Decimal(0x1_0000_0000_0000_0000 - v)
  }

  /** An id read as a uint32_t into a vector of int32_t. */
  function SignedId(id: nat): Json { Int(if id < 0x8000_0000 then id else id - 0x1_0000_0000) }

  function Chars32(chars: bytes): seq<Json> { seq(|chars|, i requires 0 <= i < |chars| => Int(chars[i])) }

  function Ids(ids: seq<nat>): seq<Json> { seq(|ids|, i requires 0 <= i < |ids| => SignedId(ids[i])) }

  /** {"creation": c, "id": id, "node": n} */
  function NodeObject(node: Json, id: Json, creation: byte): seq<Field> {
    [Field([99, 114, 101, 97, 116, 105, 111, 110], Int(creation)), Field([105, 100], id),
     Field([110, 111, 100, 101], node)]
  }

  /** The value of a term; an empty map is null, and so is a list with another tail than nil. */
  function Meaning(h: Host, t: Term): Json
    decreases t, 1
  {
    match t
    case SmallInt(n) => Int(n)
    case Integer(n) => Int(n)
    case NewFloat(bits) => Float(bits)
    case FloatText(text) => var bits := h.scanDouble(text); if bits.Some? then Float(bits.value) else Null
    case Atom(name) => WordOrText(name)
    case SmallAtom(name) => WordOrText(name)
    case Nil => Arr([])
    case Chars(chars) => Arr(Chars32(chars))
    case Binary(text) => Str(text)
    case SmallBig(sign, digits) => Str(BigText(sign, digits))
    case LargeBig(sign, digits) => Str(BigText(sign, digits))
    case SmallTuple(items) => Arr(Meanings(h, items))
    case LargeTuple(items) => Arr(Meanings(h, items))
    case List(items, tail) => if tail == 106 then Arr(Meanings(h, items)) else Null
    case Map(pairs) => if pairs == [] then Null else Obj(PairFields(h, pairs, []))
    case Reference(node, id, creation) => Obj(NodeObject(Meaning(h, node), Arr([SignedId(id)]), creation))
    case NewReference(node, creation, ids) => Obj(NodeObject(Meaning(h, node), Arr(Ids(ids)), creation))
    case Port(node, id, creation) => Obj(NodeObject(Meaning(h, node), Int(id), creation))
    case Pid(node, id, serial, creation) =>
      Obj(NodeObject(Meaning(h, node), Int(id), creation) + [Field([115, 101, 114, 105, 97, 108], Int(serial))])
    case Export(mod, fun, arity) =>
      Obj([Field([97, 114, 105, 116, 121], Meaning(h, arity)), Field([102, 117, 110], Meaning(h, fun)),
           Field([109, 111, 100], Meaning(h, mod))])
  }

  function Meanings(h: Host, items: seq<Term>): seq<Json>
    decreases items, 0
  {
    if items == [] then [] else [Meaning(h, items[0])] + Meanings(h, items[1..])
  }

  /** The text of a key: a number is printed as a uint64_t. */
  function KeyOf(h: Host, t: Term): bytes {
    match t
    case SmallInt(n) => Decimal(n)
    case Integer(n) => Decimal(if n < 0 then n + 0x1_0000_0000_0000_0000 else n)
    case NewFloat(bits) => Decimal(h.doubleToUint64(bits) % 0x1_0000_0000_0000_0000)
    case FloatText(text) =>
      var bits := h.scanDouble(text);
      if bits.Some? then Decimal(h.doubleToUint64(bits.value) % 0x1_0000_0000_0000_0000) else []
    case Atom(name) => name
    case SmallAtom(name) => name
    case Binary(text) => text
    case SmallBig(sign, digits) => BigText(sign, digits)
    case LargeBig(sign, digits) => BigText(sign, digits)
    case _ => []
  }

  /** The pairs one after another; see `EmplaceIsMap` for what an insertion does. */
  function PairFields(h: Host, pairs: seq<Pair>, fields: seq<Field>): seq<Field>
    decreases pairs, 0
  {
    if pairs == [] then fields
    else PairFields(h, pairs[1..], Emplace(fields, KeyOf(h, pairs[0].key), ValueOf(h, pairs[0])))
  }

  function ValueOf(h: Host, p: Pair): Json
    decreases p
  {
    Meaning(h, p.value)
  }

  // ---------------------------------------------------------------- leaves

  /** Tag, and a number of k bytes behind it. */
  lemma {:induction false} TagAndNum(d: bytes, off: nat, tag: byte, n: nat, k: nat, rest: bytes)
    requires n < Pow256(k) && At(d, off, Tagged(tag, Be(n, k) + rest))
    ensures ReadNum(d, off, 1) == Ok(tag, off + 1) && ReadNum(d, off + 1, k) == Ok(n, off + 1 + k)
    ensures At(d, off + 1 + k, rest)
  {
    hide Be, FromBe, ReadNum;
    ReadsTag(d, off, tag, Be(n, k) + rest);
    AtSplit(d, off + 1, Be(n, k), rest);
    ReadsBe(d, off + 1, n, k);
  }

  /** Tag and a count of one byte. */
  lemma {:induction false} TagAndByte(d: bytes, off: nat, tag: byte, n: byte, rest: bytes)
    requires At(d, off, Tagged(tag, [n] + rest))
    ensures ReadNum(d, off, 1) == Ok(tag, off + 1) && ReadNum(d, off + 1, 1) == Ok(n, off + 2)
    ensures At(d, off + 2, rest)
  {
    hide ReadNum;
    ReadsTag(d, off, tag, [n] + rest);
    ReadsTag(d, off + 1, n, rest);
  }

  lemma {:induction false} ByLeaf(h: Host, d: bytes, off: nat, tag: byte)
    requires ReadNum(d, off, 1) == Ok(tag, off + 1) && !IsCompound(tag)
    ensures off + 1 <= |d| && Decode(h, d, off) == DecodeLeaf(h, d, tag, off + 1)
  {
    hide DecodeLeaf, DecodeCompound, ReadNum;
  }

  lemma {:induction false} NumberDecodes(h: Host, d: bytes, off: nat, t: Term)
    requires Fits(h, t) && (t.SmallInt? || t.Integer? || t.NewFloat?) && At(d, off, WireOf(t))
    ensures Decode(h, d, off) == Ok(Meaning(h, t), off + |WireOf(t)|)
  {
    Powers();
    hide Be, FromBe, Decode, ReadNum;
    match t
    case SmallInt(n) =>
      assert [n] + [] == [n];
      TagAndByte(d, off, 97, n, []);
      ByLeaf(h, d, off, 97);
    case Integer(n) =>
      assert Be(n % 0x1_0000_0000, 4) + [] == Be(n % 0x1_0000_0000, 4);
      TagAndNum(d, off, 98, n % 0x1_0000_0000, 4, []);
      ByLeaf(h, d, off, 98);
    case NewFloat(bits) =>
      assert Be(bits, 8) + [] == Be(bits, 8);
      TagAndNum(d, off, 70, bits, 8, []);
      ByLeaf(h, d, off, 70);
  }

  lemma {:induction false} FloatTextDecodes(h: Host, d: bytes, off: nat, text: bytes)
    requires |text| == 31 && At(d, off, WireOf(FloatText(text)))
    ensures Decode(h, d, off) == Ok(Meaning(h, FloatText(text)), off + 32)
  {
    hide Decode, ReadNum;
    ReadsTag(d, off, 99, text);
    ByLeaf(h, d, off, 99);
  }

  /** A text of n bytes behind its length. */
  lemma {:induction false} TextThere(d: bytes, off: nat, text: bytes)
    requires At(d, off, text)
    ensures off <= |d| && ReadString(d, off, |text|) == (Some(text), off + |text|)
  {
  }

  lemma {:induction false} AtomDecodes(h: Host, d: bytes, off: nat, t: Term)
    requires Fits(h, t) && (t.Atom? || t.SmallAtom?) && At(d, off, WireOf(t))
    ensures Decode(h, d, off) == Ok(WordOrText(t.name), off + |WireOf(t)|)
  {
    Powers();
    hide Be, FromBe, Decode, ReadNum, ReadString, At;
    if t.Atom? {
      TagAndNum(d, off, 100, |t.name|, 2, t.name);
      TextThere(d, off + 3, t.name);
      ByLeaf(h, d, off, 100);
    } else {
      TagAndByte(d, off, 115, |t.name|, t.name);
      TextThere(d, off + 2, t.name);
      ByLeaf(h, d, off, 115);
    }
  }

  lemma {:induction false} BinaryDecodes(h: Host, d: bytes, off: nat, text: bytes)
    requires |text| < 0x1_0000_0000 && At(d, off, WireOf(Binary(text)))
    ensures Decode(h, d, off) == Ok(Str(text), off + 5 + |text|)
  {
    Powers();
    hide Be, FromBe, Decode, ReadNum, ReadString, At;
    TagAndNum(d, off, 109, |text|, 4, text);
    TextThere(d, off + 5, text);
    ByLeaf(h, d, off, 109);
  }

  lemma {:induction false} CharsDecode(h: Host, d: bytes, off: nat, chars: bytes)
    requires |chars| < 0x1_0000 && At(d, off, WireOf(Chars(chars)))
    ensures Decode(h, d, off) == Ok(Arr(Chars32(chars)), off + 3 + |chars|)
  {
    Powers();
    hide Be, FromBe, Decode, ReadNum, ReadString;
    TagAndNum(d, off, 107, |chars|, 2, chars);
    assert Ints(chars) == Chars32(chars);
    ByLeaf(h, d, off, 107);
  }

  lemma {:induction false} NilDecodes(h: Host, d: bytes, off: nat)
    requires At(d, off, WireOf(Nil))
    ensures Decode(h, d, off) == Ok(Arr([]), off + 1)
  {
    hide Decode, ReadNum;
    ReadsTag(d, off, 106, []);
    ByLeaf(h, d, off, 106);
  }

  lemma {:induction false} BigDecodes(h: Host, d: bytes, off: nat, t: Term)
    requires Fits(h, t) && (t.SmallBig? || t.LargeBig?) && At(d, off, WireOf(t))
    ensures Decode(h, d, off) == Ok(Str(BigText(t.sign, t.digits)), off + |WireOf(t)|)
  {
    Powers();
    hide Be, FromBe, DecodeBigInt, BigText, Decode, ReadNum, At;
    if t.SmallBig? {
      TagAndByte(d, off, 110, |t.digits|, [t.sign] + t.digits);
      SignAndDigits(d, off + 2, t.sign, t.digits);
      ByLeaf(h, d, off, 110);
    } else {
      TagAndNum(d, off, 111, |t.digits|, 4, [t.sign] + t.digits);
      SignAndDigits(d, off + 5, t.sign, t.digits);
      ByLeaf(h, d, off, 111);
    }
  }

  lemma {:induction false} SignAndDigits(d: bytes, off: nat, sign: byte, digits: bytes)
    requires |digits| <= 8 && At(d, off, [sign] + digits)
    ensures DecodeBigInt(d, off, |digits|) == Ok(Str(BigText(sign, digits)), off + 1 + |digits|)
  {
    hide Decimal, FromLe, ReadNum;
    ReadsTag(d, off, sign, digits);
    DigitsRange(digits);
  }

  /** Eight digits stay below 2^64. */
  lemma {:induction false} DigitsRange(digits: bytes)
    requires |digits| <= 8
    ensures FromLe(digits) < 0x1_0000_0000_0000_0000
  {
    LeRange(digits);
    PowGrows(|digits|, 8);
    Powers();
  }

  lemma {:induction false} LeRange(s: bytes)
    ensures FromLe(s) < Pow256(|s|)
  {
    if s != [] { LeRange(s[1..]); }
  }

  lemma {:induction false} PowGrows(a: nat, b: nat)
    requires a <= b
    ensures Pow256(a) <= Pow256(b)
    decreases b
  {
    if a < b { PowGrows(a, b - 1); }
  }

  // ---------------------------------------------------------------- compound terms

  lemma {:induction false} ByCompound(h: Host, d: bytes, off: nat, tag: byte)
    requires ReadNum(d, off, 1) == Ok(tag, off + 1) && IsCompound(tag)
    ensures off + 1 <= |d| && Decode(h, d, off) == DecodeCompound(h, d, tag, off + 1)
  {
    hide DecodeLeaf, DecodeCompound, ReadNum;
  }

  lemma {:induction false} IdsDecode(d: bytes, off: nat, ids: seq<nat>)
    requires (forall id :: id in ids ==> id < 0x1_0000_0000) && At(d, off, WireOfIds(ids))
    ensures off <= |d| && ReadIds(d, off, |ids|) == Ok(Ids(ids), off + |WireOfIds(ids)|)
    decreases |ids|
  {
    Powers();
    hide Be, FromBe;
    if ids == [] {
      assert Ids(ids) == [];
    } else {
      assert ids[0] in ids && forall id :: id in ids[1..] ==> id in ids;
      AtSplit(d, off, Be(ids[0], 4), WireOfIds(ids[1..]));
      ReadsBe(d, off, ids[0], 4);
      IdsDecode(d, off + 4, ids[1..]);
      assert Ids(ids) == [SignedId(ids[0])] + Ids(ids[1..]);
    }
    hide ReadNum;
  }

  /** An id and the creation byte. */
  lemma {:induction false} IdAndCreation(d: bytes, off: nat, id: nat, creation: byte)
    requires id < 0x1_0000_0000 && At(d, off, Be(id, 4) + [creation])
    ensures off <= |d| && ReadNum(d, off, 4) == Ok(id, off + 4) && ReadNum(d, off + 4, 1) == Ok(creation, off + 5)
    ensures ReadIds(d, off, 1) == Ok([SignedId(id)], off + 4)
  {
    Powers();
    hide Be, FromBe;
    AtSplit(d, off, Be(id, 4), [creation]);
    ReadsBe(d, off, id, 4);
    ReadsByte(d, off + 4, creation);
    assert ReadIds(d, off + 4, 0) == Ok([], off + 4);
    assert [SignedId(id)] + [] == [SignedId(id)];
    hide ReadNum;
  }

  /** Every inbound form, anywhere in an input: its value comes back and exactly its bytes are consumed. */
  lemma {:induction false} WireDecodes(h: Host, d: bytes, off: nat, t: Term)
    requires Fits(h, t) && At(d, off, WireOf(t))
    ensures Decode(h, d, off) == Ok(Meaning(h, t), off + |WireOf(t)|)
    decreases t, 2
  {
    hide Decode, DecodeLeaf, DecodeCompound, WireOfAll, WireOfPairs;
    match t
    case SmallInt(_) => NumberDecodes(h, d, off, t);
    case Integer(_) => NumberDecodes(h, d, off, t);
    case NewFloat(_) => NumberDecodes(h, d, off, t);
    case FloatText(text) => FloatTextDecodes(h, d, off, text);
    case Atom(_) => AtomDecodes(h, d, off, t);
    case SmallAtom(_) => AtomDecodes(h, d, off, t);
    case Nil => NilDecodes(h, d, off);
    case Chars(chars) => CharsDecode(h, d, off, chars);
    case Binary(text) => BinaryDecodes(h, d, off, text);
    case SmallBig(_, _) => BigDecodes(h, d, off, t);
    case LargeBig(_, _) => BigDecodes(h, d, off, t);
    case SmallTuple(_) => TupleDecodes(h, d, off, t);
    case LargeTuple(_) => TupleDecodes(h, d, off, t);
    case List(_, _) => ListDecodes(h, d, off, t);
    case Map(_) => MapDecodes(h, d, off, t);
    case Reference(_, _, _) => ReferenceDecodes(h, d, off, t);
    case NewReference(_, _, _) => NewReferenceDecodes(h, d, off, t);
    case Port(_, _, _) => PortDecodes(h, d, off, t);
    case Pid(_, _, _, _) => PidDecodes(h, d, off, t);
    case Export(_, _, _) => ExportDecodes(h, d, off, t);
  }

  lemma {:induction false} AllDecode(h: Host, d: bytes, off: nat, items: seq<Term>)
    requires AllFit(h, items) && At(d, off, WireOfAll(items))
    ensures off <= |d| && DecodeArray(h, d, off, |items|) == Ok(Meanings(h, items), off + |WireOfAll(items)|)
    decreases items, 0
  {
    hide Decode, DecodeLeaf, DecodeCompound, WireOf;
    if items != [] {
      AtSplit(d, off, WireOf(items[0]), WireOfAll(items[1..]));
      WireDecodes(h, d, off, items[0]);
      AllDecode(h, d, off + |WireOf(items[0])|, items[1..]);
      DecodesItem(h, d, off, |items|, Meaning(h, items[0]), off + |WireOf(items[0])|);
    }
  }

  lemma {:induction false} PairsDecode(h: Host, d: bytes, off: nat, pairs: seq<Pair>, fields: seq<Field>)
    requires PairsFit(h, pairs) && At(d, off, WireOfPairs(pairs))
    ensures off <= |d|
    ensures DecodeFields(h, d, off, |pairs|, fields) == Ok(PairFields(h, pairs, fields), off + |WireOfPairs(pairs)|)
    decreases pairs, 0
  {
    hide Decode, DecodeLeaf, DecodeCompound, WireOf, WireOfPair, Emplace, KeyOf;
    if pairs != [] {
      var p, o2 := pairs[0], off + |WireOfPair(pairs[0])|;
      AtSplit(d, off, WireOfPair(p), WireOfPairs(pairs[1..]));
      PairDecodes(h, d, off, p);
      PairsDecode(h, d, o2, pairs[1..], Emplace(fields, KeyOf(h, p.key), ValueOf(h, p)));
    }
  }

  lemma {:induction false} PairDecodes(h: Host, d: bytes, off: nat, p: Pair)
    requires PairFits(h, p) && At(d, off, WireOfPair(p))
    ensures off <= |d| && Decode(h, d, off).Ok?
    ensures var k := Decode(h, d, off);
            && KeyText(h, k.value) == Some(KeyOf(h, p.key)) && k.next <= |d|
            && Decode(h, d, k.next) == Ok(ValueOf(h, p), off + |WireOfPair(p)|)
    decreases p
  {
    hide Decode, DecodeLeaf, DecodeCompound, WireOf, Meaning, KeyText, KeyOf;
    AtSplit(d, off, WireOf(p.key), WireOf(p.value));
    WireDecodes(h, d, off, p.key);
    WireDecodes(h, d, off + |WireOf(p.key)|, p.value);
    KeyIsText(h, p.key);
  }

  lemma {:induction false} KeyIsText(h: Host, t: Term)
    requires Fits(h, t) && IsKey(h, t)
    ensures KeyText(h, Meaning(h, t)) == Some(KeyOf(h, t))
  {
    hide Decimal, BigText;
  }

  lemma {:induction false} TupleDecodes(h: Host, d: bytes, off: nat, t: Term)
    requires Fits(h, t) && (t.SmallTuple? || t.LargeTuple?) && At(d, off, WireOf(t))
    ensures Decode(h, d, off) == Ok(Meaning(h, t), off + |WireOf(t)|)
    decreases t, 1
  {
    Powers();
    hide Be, FromBe, Decode, DecodeArray, ReadNum, At, WireOfAll;
    if t.SmallTuple? {
      TagAndByte(d, off, 104, |t.items|, WireOfAll(t.items));
      AllDecode(h, d, off + 2, t.items);
      ByCompound(h, d, off, 104);
    } else {
      TagAndNum(d, off, 105, |t.items|, 4, WireOfAll(t.items));
      AllDecode(h, d, off + 5, t.items);
      ByCompound(h, d, off, 105);
    }
  }

  lemma {:induction false} ListDecodes(h: Host, d: bytes, off: nat, t: Term)
    requires Fits(h, t) && t.List? && At(d, off, WireOf(t))
    ensures Decode(h, d, off) == Ok(Meaning(h, t), off + |WireOf(t)|)
    decreases t, 1
  {
    Powers();
    hide Be, FromBe, Decode, DecodeArray, DecodeCompound, ReadNum, At, WireOfAll;
    TagAndNum(d, off, 108, |t.items|, 4, WireOfAll(t.items) + [t.tail]);
    AtSplit(d, off + 5, WireOfAll(t.items), [t.tail]);
    AllDecode(h, d, off + 5, t.items);
    ReadsByte(d, off + 5 + |WireOfAll(t.items)|, t.tail);
    DecodesList(h, d, off, |t.items|);
  }

  lemma {:induction false} MapDecodes(h: Host, d: bytes, off: nat, t: Term)
    requires Fits(h, t) && t.Map? && At(d, off, WireOf(t))
    ensures Decode(h, d, off) == Ok(Meaning(h, t), off + |WireOf(t)|)
    decreases t, 1
  {
    Powers();
    hide Be, FromBe, Decode, DecodeFields, DecodeCompound, ReadNum, At, WireOfPairs, PairFields;
    TagAndNum(d, off, 116, |t.pairs|, 4, WireOfPairs(t.pairs));
    PairsDecode(h, d, off + 5, t.pairs, []);
    DecodesMap(h, d, off, |t.pairs|);
  }

  lemma {:induction false} ReferenceDecodes(h: Host, d: bytes, off: nat, t: Term)
    requires Fits(h, t) && t.Reference? && At(d, off, WireOf(t))
    ensures Decode(h, d, off) == Ok(Meaning(h, t), off + |WireOf(t)|)
    decreases t, 1
  {
    hide Be, FromBe, Decode, ReadNum, ReadIds, At;
    var o1 := off + 1 + |WireOf(t.node)|;
    ReadsTag(d, off, 101, WireOf(t.node) + (Be(t.id, 4) + [t.creation]));
    AtSplit(d, off + 1, WireOf(t.node), Be(t.id, 4) + [t.creation]);
    WireDecodes(h, d, off + 1, t.node);
    IdAndCreation(d, o1, t.id, t.creation);
    ByCompound(h, d, off, 101);
    hide WireOf;
  }

  lemma {:induction false} PortDecodes(h: Host, d: bytes, off: nat, t: Term)
    requires Fits(h, t) && t.Port? && At(d, off, WireOf(t))
    ensures Decode(h, d, off) == Ok(Meaning(h, t), off + |WireOf(t)|)
    decreases t, 1
  {
    hide Be, FromBe, Decode, ReadNum, ReadIds, At;
    var o1 := off + 1 + |WireOf(t.node)|;
    ReadsTag(d, off, 102, WireOf(t.node) + (Be(t.id, 4) + [t.creation]));
    AtSplit(d, off + 1, WireOf(t.node), Be(t.id, 4) + [t.creation]);
    WireDecodes(h, d, off + 1, t.node);
    IdAndCreation(d, o1, t.id, t.creation);
    ByCompound(h, d, off, 102);
  }

  lemma {:induction false} PidDecodes(h: Host, d: bytes, off: nat, t: Term)
    requires Fits(h, t) && t.Pid? && At(d, off, WireOf(t))
    ensures Decode(h, d, off) == Ok(Meaning(h, t), off + |WireOf(t)|)
    decreases t, 1
  {
    Powers();
    hide Be, FromBe, Decode, ReadNum, ReadIds, At;
    var o1 := off + 1 + |WireOf(t.node)|;
    var rest := Be(t.id, 4) + (Be(t.serial, 4) + [t.creation]);
    ReadsTag(d, off, 103, WireOf(t.node) + rest);
    AtSplit(d, off + 1, WireOf(t.node), rest);
    WireDecodes(h, d, off + 1, t.node);
    AtSplit(d, o1, Be(t.id, 4), Be(t.serial, 4) + [t.creation]);
    ReadsBe(d, o1, t.id, 4);
    IdAndCreation(d, o1 + 4, t.serial, t.creation);
    ByCompound(h, d, off, 103);
    var node := Meaning(h, t.node);
    assert NodeObject(node, Int(t.id), t.creation) + [Field(SERIAL, Int(t.serial))]
        == [Field(CREATION, Int(t.creation)), Field(ID, Int(t.id)), Field(NODE, node), Field(SERIAL, Int(t.serial))];
  }

  lemma {:induction false} NewReferenceDecodes(h: Host, d: bytes, off: nat, t: Term)
    requires Fits(h, t) && t.NewReference? && At(d, off, WireOf(t))
    ensures Decode(h, d, off) == Ok(Meaning(h, t), off + |WireOf(t)|)
    decreases t, 1
  {
    Powers();
    hide Be, FromBe, Decode, ReadNum, ReadIds, At, WireOfIds, Ids;
    var o2 := off + 3 + |WireOf(t.node)|;
    TagAndNum(d, off, 114, |t.ids|, 2, WireOf(t.node) + ([t.creation] + WireOfIds(t.ids)));
    AtSplit(d, off + 3, WireOf(t.node), [t.creation] + WireOfIds(t.ids));
    WireDecodes(h, d, off + 3, t.node);
    ReadsTag(d, o2, t.creation, WireOfIds(t.ids));
    IdsDecode(d, o2 + 1, t.ids);
    ByCompound(h, d, off, 114);
  }

  lemma {:induction false} ExportDecodes(h: Host, d: bytes, off: nat, t: Term)
    requires Fits(h, t) && t.Export? && At(d, off, WireOf(t))
    ensures Decode(h, d, off) == Ok(Meaning(h, t), off + |WireOf(t)|)
    decreases t, 1
  {
    hide Decode, ReadNum, At;
    var o1 := off + 1 + |WireOf(t.mod)|;
    ReadsTag(d, off, 113, WireOf(t.mod) + (WireOf(t.fun) + WireOf(t.arity)));
    AtSplit(d, off + 1, WireOf(t.mod), WireOf(t.fun) + WireOf(t.arity));
    AtSplit(d, o1, WireOf(t.fun), WireOf(t.arity));
    WireDecodes(h, d, off + 1, t.mod);
    WireDecodes(h, d, o1, t.fun);
    WireDecodes(h, d, o1 + |WireOf(t.fun)|, t.arity);
    ByCompound(h, d, off, 113);
    assert DecodeCompound(h, d, EXPORT, off + 1) == Ok(Meaning(h, t), o1 + |WireOf(t.fun)| + |WireOf(t.arity)|);
  }

  // ---------------------------------------------------------------- whole inputs, and what is refused

  /** A whole parse: the version byte 131 and a term, whatever follows. */
  lemma {:induction false} WireParses(h: Host, t: Term, rest: bytes)
    requires Fits(h, t)
    ensures Parse(h, [131] + WireOf(t) + rest) == Ok(Meaning(h, t), 1 + |WireOf(t)|)
  {
    hide Decode, WireOf, Meaning;
    var d := [131] + WireOf(t) + rest;
    assert d[0..1] == [131] && d[1..1 + |WireOf(t)|] == WireOf(t);
    ReadsByte(d, 0, 131);
    WireDecodes(h, d, 1, t);
  }

  /** A byte that is no tag at all, or one of the three forms that are refused, is an exception. */
  lemma {:induction false} OtherTagsFail(h: Host, d: bytes, off: nat)
    requires off < |d|
    requires d[off] !in {70, 97, 98, 99, 100, 101, 102, 103, 104, 105, 106, 107, 108, 109, 110, 111, 113, 114, 115, 116}
    ensures Decode(h, d, off) ==
            Fail(if d[off] == 68 then Distribution else if d[off] == 80 then Unsupported else UnknownType)
  {
    hide ReadNum;
    assert d[off..off + 1] == [d[off]];
    ReadsByte(d, off, d[off]);
  }

  /** A text, atom or float whose bytes are not all there is null, and only its length is consumed. */
  lemma {:induction false} CutTextIsNull(h: Host, d: bytes, off: nat, n: nat)
    requires off <= |d|
    ensures n < 0x1_0000_0000 && At(d, off, [109] + Be(n, 4)) && off + 5 + n > |d|
            ==> Decode(h, d, off) == Ok(Null, off + 5)
    ensures n < 0x1_0000 && At(d, off, [100] + Be(n, 2)) && off + 3 + n > |d|
            ==> Decode(h, d, off) == Ok(Null, off + 3)
    ensures n < 0x100 && At(d, off, [115] + [n % 256]) && off + 2 + n > |d| ==> Decode(h, d, off) == Ok(Null, off + 2)
    ensures At(d, off, [99]) && off + 32 > |d| ==> Decode(h, d, off) == Ok(Null, off + 1)
  {
    Powers();
    hide Be, FromBe, Decode, ReadNum;
    if n < 0x1_0000_0000 && At(d, off, [109] + Be(n, 4)) && off + 5 + n > |d| {
      assert Be(n, 4) + [] == Be(n, 4);
      TagAndNum(d, off, 109, n, 4, []);
      ByLeaf(h, d, off, 109);
    }
    if n < 0x1_0000 && At(d, off, [100] + Be(n, 2)) && off + 3 + n > |d| {
      assert Be(n, 2) + [] == Be(n, 2);
      TagAndNum(d, off, 100, n, 2, []);
      ByLeaf(h, d, off, 100);
    }
    if n < 0x100 && At(d, off, [115] + [n % 256]) && off + 2 + n > |d| {
      assert [n] + [] == [n];
      TagAndByte(d, off, 115, n, []);
      ByLeaf(h, d, off, 115);
    }
    if At(d, off, [99]) && off + 32 > |d| {
      ReadsByte(d, off, 99);
      ByLeaf(h, d, off, 99);
    }
  }

  /** A big integer of more than eight digits is an exception. */
  lemma {:induction false} LongBigFails(h: Host, d: bytes, off: nat, n: nat, sign: byte)
    requires 8 < n
    requires (n < 0x100 && At(d, off, Tagged(110, [n % 256] + [sign])))
          || (n < 0x1_0000_0000 && At(d, off, Tagged(111, Be(n, 4) + [sign])))
    ensures Decode(h, d, off) == Fail(BigIntTooLarge)
  {
    Powers();
    hide Be, FromBe, Decode, ReadNum;
    if n < 0x100 && At(d, off, Tagged(110, [n % 256] + [sign])) {
      TagAndByte(d, off, 110, n, [sign]);
      ReadsByte(d, off + 2, sign);
      ByLeaf(h, d, off, 110);
    } else {
      TagAndNum(d, off, 111, n, 4, [sign]);
      ReadsByte(d, off + 5, sign);
      ByLeaf(h, d, off, 111);
    }
  }

  /** A map key that is neither text nor number is an exception. */
  lemma {:induction false} OtherKeysFail(h: Host, d: bytes, off: nat, n: nat, t: Term)
    requires 0 < n < 0x1_0000_0000 && Fits(h, t) && !IsKey(h, t) && At(d, off, Tagged(116, Be(n, 4) + WireOf(t)))
    ensures Decode(h, d, off) == Fail(BadKey)
  {
    Powers();
    TagAndNum(d, off, 116, n, 4, WireOf(t));
    WireDecodes(h, d, off + 5, t);
    KeyIsNoText(h, t);
    hide Be, FromBe, Decode, DecodeCompound, ReadNum, WireOf, Meaning, At;
    DecodesMap(h, d, off, n);
  }

  lemma {:induction false} KeyIsNoText(h: Host, t: Term)
    requires !IsKey(h, t)
    ensures KeyText(h, Meaning(h, t)) == None
  {
  }

  // ---------------------------------------------------------------- what the builder writes

  /** The form the builder chooses for a value; an empty array has none of its own. */
  function TermOf(j: Json): Term
    decreases j, 1
  {
    match j
    case Null => SmallAtom([110, 105, 108])
    case Bool(b) => SmallAtom(if b then [116, 114, 117, 101] else [102, 97, 108, 115, 101])
    case Int(n) =>
      if 0 <= n <= 127 then SmallInt(n)
      else if n >= 0x1_0000_0000 - 2 then SmallBig(0, Le(n))
      else Integer(n)
    case Float(bits) => NewFloat(bits)
    case Str(s) => Binary(s)
    case Arr(items) => List(TermsOf(items), 106)
    case Obj(fields) => Map(PairsOf(fields))
  }

  function TermsOf(items: seq<Json>): (r: seq<Term>)
    ensures |r| == |items|
    decreases items, 0
  {
    if items == [] then [] else [TermOf(items[0])] + TermsOf(items[1..])
  }

  function PairsOf(fields: seq<Field>): (r: seq<Pair>)
    ensures |r| == |fields|
    decreases fields, 0
  {
    if fields == [] then [] else [Pair(Binary(fields[0].key), TermOf(fields[0].value))] + PairsOf(fields[1..])
  }

  /** In the round-trip domain the builder writes that form, by tag numbers and field widths. */
  lemma {:induction false} EncodeIsWire(j: Json)
    requires IsJson(j) && !TooLarge(j) && InDomain(j)
    ensures Encode(j) == WireOf(TermOf(j))
    decreases j, 1
  {
    hide Encode, WireOf, TermOf, IsJson, TooLarge, InDomain;
    match j
    case Arr(items) => ArrIsWire(items);
    case Obj(fields) => ObjIsWire(fields);
    case _ => LeafIsWire(j);
  }

  lemma {:induction false} LeafIsWire(j: Json)
    requires IsJson(j) && InDomain(j) && !j.Arr? && !j.Obj?
    ensures Encode(j) == WireOf(TermOf(j))
  {
    hide Be, Le;
    match j
    case Int(n) => IntIsWire(n);
    case Str(s) => assert EncodeStr(s) == [109] + (Be(|s|, 4) + s);
    case _ =>
  }

  lemma {:induction false} IntIsWire(n: int)
    requires -TWO_63 <= n < TWO_64 && IntSurvives(n)
    ensures EncodeInt(n) == WireOf(TermOf(Int(n)))
  {
    if n >= TWO_32 - 2 {
      Powers();
      LeLength(n, 8);
      assert EncodeInt(n) == [110, |Le(n)| % 256, 0] + Le(n);
      assert WireOf(SmallBig(0, Le(n))) == [110] + ([|Le(n)| % 256] + ([0] + Le(n)));
    }
    hide Be, Le;
  }

  lemma {:induction false} ArrIsWire(items: seq<Json>)
    requires IsJson(Arr(items)) && !TooLarge(Arr(items)) && InDomain(Arr(items))
    ensures Encode(Arr(items)) == WireOf(TermOf(Arr(items)))
    decreases items, 1
  {
    ItemsAreWire(items);
    ListIsWire(|items|, EncodeItems(items));
    hide Be, WireOfAll, EncodeItems, ListHeader, TermsOf, ItemsAreJson, ItemsTooLarge, ItemsInDomain;
  }

  lemma {:induction false} ListIsWire(n: nat, body: bytes)
    requires n > 0
    ensures ListHeader(n) + (body + [106]) == Tagged(108, Be(n, 4) + (body + [106]))
  {
    hide Be;
  }

  lemma {:induction false} ObjIsWire(fields: seq<Field>)
    requires IsJson(Obj(fields)) && !TooLarge(Obj(fields)) && InDomain(Obj(fields))
    ensures Encode(Obj(fields)) == WireOf(TermOf(Obj(fields)))
    decreases fields, 1
  {
    FieldsAreWire(fields);
    MapIsWire(|fields|, EncodeFields(fields));
    hide Be, WireOfPairs, EncodeFields, PairsOf, FieldsAreJson, FieldsTooLarge, FieldsInDomain;
  }

  lemma {:induction false} MapIsWire(n: nat, body: bytes)
    ensures [116] + Be(n, 4) + body == Tagged(116, Be(n, 4) + body)
  {
    hide Be;
  }

  lemma {:induction false} ItemsAreWire(items: seq<Json>)
    requires ItemsAreJson(items) && !ItemsTooLarge(items) && ItemsInDomain(items)
    ensures EncodeItems(items) == WireOfAll(TermsOf(items))
    decreases items, 0
  {
    hide WireOf, Encode;
    if items != [] {
      EncodeIsWire(items[0]);
      ItemsAreWire(items[1..]);
      assert TermsOf(items)[1..] == TermsOf(items[1..]);
    }
  }

  lemma {:induction false} FieldsAreWire(fields: seq<Field>)
    requires FieldsAreJson(fields) && !FieldsTooLarge(fields) && FieldsInDomain(fields)
    ensures EncodeFields(fields) == WireOfPairs(PairsOf(fields))
    decreases fields, 0
  {
    hide Encode, WireOf, Be;
    if fields != [] {
      var f, rest := fields[0], fields[1..];
      EncodeIsWire(f.value);
      FieldsAreWire(rest);
      KeyIsWire(f.key);
      assert PairsOf(fields)[0] == Pair(Binary(f.key), TermOf(f.value)) && PairsOf(fields)[1..] == PairsOf(rest);
    }
  }

  lemma {:induction false} KeyIsWire(key: bytes)
    requires |key| < TWO_32
    ensures EncodeStr(key) == WireOf(Binary(key))
  {
    hide Be;
    assert EncodeStr(key) == [109] + (Be(|key|, 4) + key);
  }

  // ---------------------------------------------------------------- objects as maps

  /** The value of a key, by its first field. */
  function Get(fields: seq<Field>, key: bytes): Option<Json> {
    if fields == [] then None
    else if fields[0].key == key then Some(fields[0].value)
    else Get(fields[1..], key)
  }

  lemma {:induction false} LessTotal(a: bytes, b: bytes)
    ensures Less(a, b) || a == b || Less(b, a)
    decreases |a|
  {
    if a != [] && b != [] && a[0] == b[0] {
      LessTotal(a[1..], b[1..]);
      assert a == [a[0]] + a[1..] && b == [b[0]] + b[1..];
    }
  }

  lemma {:induction false} LessTransitive(a: bytes, b: bytes, c: bytes)
    requires Less(a, b) && Less(b, c)
    ensures Less(a, c)
    decreases |a|
  {
    if a != [] && a[0] == b[0] == c[0] { LessTransitive(a[1..], b[1..], c[1..]); }
  }

  /** An insertion keeps the keys in order, gives a new key its value and changes no key that is there. */
  lemma {:induction false} EmplaceIsMap(fields: seq<Field>, key: bytes, value: Json, k: bytes)
    requires Ascending(fields)
    ensures Ascending(Emplace(fields, key, value))
    ensures Get(Emplace(fields, key, value), k) ==
            if Get(fields, k).Some? then Get(fields, k) else if k == key then Some(value) else None
    decreases |fields|
  {
    var r := Emplace(fields, key, value);
    if fields != [] && fields[0].key != key {
      LessTotal(key, fields[0].key);
      if Less(key, fields[0].key) {
        assert r[1..] == fields;
        forall j | 0 <= j < |fields| ensures Less(key, fields[j].key) {
          if j > 0 { LessTransitive(key, fields[0].key, fields[j].key); }
        }
        if k == key { NotBefore(fields, key); }
      } else {
        EmplaceIsMap(fields[1..], key, value, k);
        var tail := Emplace(fields[1..], key, value);
        forall j | 0 <= j < |tail| ensures Less(fields[0].key, tail[j].key) {
          assert tail[j] in tail;
        }
        assert r == [fields[0]] + tail;
      }
    }
  }

  lemma {:induction false} NotBefore(fields: seq<Field>, key: bytes)
    requires forall j :: 0 <= j < |fields| ==> Less(key, fields[j].key)
    ensures Get(fields, key) == None
    decreases |fields|
  {
    if fields != [] {
      LessIrreflexive(key);
      NotBefore(fields[1..], key);
    }
  }

  // ---------------------------------------------------------------- decimal text

  /** The number that decimal digits stand for. */
  function ReadDecimal(s: bytes): int {
    if s == [] then 0 else
    var last: int := s[|s| - 1];
    10 * ReadDecimal(s[..|s| - 1]) + (last - 48)
  }

  /** `Decimal` is the usual decimal text: a minus sign for a negative number, digits, no leading zero. */
  lemma {:induction false} DecimalReads(n: int)
    ensures n >= 0 ==> ReadDecimal(Decimal(n)) == n
    ensures n < 0 ==> Decimal(n)[0] == 45 && ReadDecimal(Decimal(n)[1..]) == -n
    ensures var digits := if n < 0 then Decimal(n)[1..] else Decimal(n);
            digits != [] && (forall x :: x in digits ==> 48 <= x <= 57) && (|digits| > 1 ==> digits[0] != 48)
  {
    hide Digits, ReadDecimal;
    if n < 0 {
      assert Decimal(n)[1..] == Digits(-n);
      DigitsRead(-n);
    } else {
      DigitsRead(n);
    }
  }

  lemma {:induction false} DigitsRead(n: nat)
    ensures ReadDecimal(Digits(n)) == n
    ensures forall x :: x in Digits(n) ==> 48 <= x <= 57
    ensures n > 0 ==> Digits(n)[0] != 48
    ensures n == 0 ==> |Digits(n)| == 1
    decreases n
  {
    if n >= 10 {
      DigitsRead(n / 10);
      assert Digits(n)[..|Digits(n)| - 1] == Digits(n / 10);
    } else {
      var digit: byte := 48 + n % 10;
      assert Digits(n) == [digit] && [digit][..0] == [];
    }
  }
}
