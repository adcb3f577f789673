/**
  Decoding what was encoded: `RoundTrip`, for every value of the domain.
  Encodings are located inside a larger input, so each lemma also says that exactly the encoding
  is consumed, whatever stands before and behind it.
  */
module EtfRoundTrip {
  import opened Bytes
  import opened EtfTerm
  import opened EtfDecode

  /** `s` stands at offset `off` of the input. */
  ghost predicate At(d: bytes, off: nat, s: bytes) {
    off + |s| <= |d| && d[off..off + |s|] == s
  }

  lemma {:induction false} AtSplit(d: bytes, off: nat, a: bytes, b: bytes)
    requires At(d, off, a + b)
    ensures At(d, off, a) && At(d, off + |a|, b)
  {
    var s := d[off..off + |a + b|];
    assert s[..|a|] == a && s[|a|..] == b;
    assert d[off..off + |a|] == s[..|a|] && d[off + |a|..off + |a| + |b|] == s[|a|..];
  }

  lemma {:induction false} ReadsByte(d: bytes, off: nat, b: byte)
    requires At(d, off, [b])
    ensures ReadNum(d, off, 1) == Ok(b, off + 1)
  {
    assert d[off..off + 1] == [b];
    assert [b][..0] == [];
    assert FromBe([b]) == b;
  }

  lemma {:induction false} ReadsBe(d: bytes, off: nat, n: nat, k: nat)
    requires At(d, off, Be(n, k)) && n < Pow256(k)
    ensures ReadNum(d, off, k) == Ok(n, off + k)
  {
    FromBeOfBe(n, k);
  }

  /** Tag and rest of an encoding. */
  lemma {:induction false} ReadsTag(d: bytes, off: nat, tag: byte, s: bytes)
    requires At(d, off, [tag] + s)
    ensures ReadNum(d, off, 1) == Ok(tag, off + 1) && At(d, off + 1, s)
  {
    AtSplit(d, off, [tag], s);
    ReadsByte(d, off, tag);
  }

  // ---------------------------------------------------------------- leaves

  lemma {:induction false} AtomRoundTrip(h: Host, d: bytes, off: nat, name: bytes)
    requires |name| < 256 && At(d, off, [ATOM_SMALL, |name|] + name)
    ensures Decode(h, d, off) == Ok(ProcessAtom(Some(name)), off + 2 + |name|)
  {
    assert [ATOM_SMALL, |name|] + name == [ATOM_SMALL] + ([|name|] + name);
    ReadsTag(d, off, ATOM_SMALL, [|name|] + name);
    ReadsTag(d, off + 1, |name|, name);
  }

  /** A string comes back whole if its length fits 32 bits, and otherwise never with its length. */
  lemma {:induction false} StrDecodes(h: Host, d: bytes, off: nat, s: bytes)
    requires At(d, off, EncodeStr(s))
    ensures |s| < TWO_32 ==> Decode(h, d, off) == Ok(Str(s), off + |EncodeStr(s)|)
    ensures |s| >= TWO_32 ==> Decode(h, d, off).Ok? && Decode(h, d, off).value != Str(s)
  {
    var length := |s| % TWO_32;
    Powers();
    assert EncodeStr(s) == [BINARY] + (Be(length, 4) + s);
    ReadsTag(d, off, BINARY, Be(length, 4) + s);
    AtSplit(d, off + 1, Be(length, 4), s);
    ReadsBe(d, off + 1, length, 4);
  }

  lemma {:induction false} BigIntDecodes(h: Host, d: bytes, off: nat, n: nat)
    requires n < TWO_63 && At(d, off, [BIGINT_SMALL, |Le(n)| % 256, 0] + Le(n))
    ensures Decode(h, d, off) == Ok(Str(Decimal(n)), off + 3 + |Le(n)|)
  {
    var digits := Le(n);
    Powers();
    LeLength(n, 8);
    FromLeOfLe(n);
    hide Le, FromLe, FromBe, DecodeCompound;
    assert [BIGINT_SMALL, |digits| % 256, 0] + digits == [BIGINT_SMALL] + ([|digits|] + ([0] + digits));
    ReadsTag(d, off, BIGINT_SMALL, [|digits|] + ([0] + digits));
    ReadsTag(d, off + 1, |digits|, [0] + digits);
    ReadsTag(d, off + 2, 0, digits);
  }

  /** The integer that comes back: exact, decimal text, or the low 32 bits. */
  lemma {:induction false} IntDecodes(h: Host, d: bytes, off: nat, n: int)
    requires -TWO_63 <= n < TWO_64 && At(d, off, EncodeInt(n))
    ensures Decode(h, d, off) ==
            Ok(if TWO_32 - 2 <= n < TWO_63 then Str(Decimal(n))
               else if 0 <= n <= 127 then Int(n)
               else Int(Signed32(n % TWO_32)),
               off + |EncodeInt(n)|)
  {
    var number := ToInt64(n);
    Powers();
    if 0 <= number <= 127 {
      assert EncodeInt(n) == [SMALL_INT] + [number];
      ReadsTag(d, off, SMALL_INT, [number]);
      ReadsByte(d, off + 1, number);
      Int64LowBits(n);
    } else if number >= TWO_32 - 2 {
      BigIntDecodes(h, d, off, number);
    } else {
      ReadsTag(d, off, INTEGER, Be(number % TWO_32, 4));
      ReadsBe(d, off + 1, number % TWO_32, 4);
      Int64LowBits(n);
    }
  }

  lemma {:induction false} Int64LowBits(n: int)
    requires -TWO_63 <= n < TWO_64
    ensures ToInt64(n) % TWO_32 == n % TWO_32
    ensures 0 <= ToInt64(n) <= 127 && n > 127 ==> Signed32(n % TWO_32) == ToInt64(n)
  {
    if n >= TWO_63 {
      assert n - TWO_64 == n + TWO_32 * (-TWO_32);
    }
  }

  lemma {:induction false} IntRoundTripIff(h: Host, d: bytes, off: nat, n: int)
    requires IsJson(Int(n)) && At(d, off, EncodeInt(n))
    ensures Decode(h, d, off).Ok? && Decode(h, d, off).next == off + |EncodeInt(n)|
    ensures Decode(h, d, off).value == Norm(Int(n)) <==> IntSurvives(n)
  {
    hide Decode, Decimal;
    IntDecodes(h, d, off, n);
  }

  predicate IsLeaf(j: Json) { !j.Arr? && !j.Obj? }

  lemma {:induction false} LeafRoundTripIff(h: Host, d: bytes, off: nat, j: Json)
    requires IsLeaf(j) && IsJson(j) && At(d, off, Encode(j))
    ensures InDomain(j) ==> Decode(h, d, off) == Ok(Norm(j), off + |Encode(j)|)
    ensures !InDomain(j) ==> Decode(h, d, off).Ok? && Decode(h, d, off).value != Norm(j)
  {
    match j
    case Null => AtomRoundTrip(h, d, off, [110, 105, 108]);
    case Bool(b) =>
      AtomRoundTrip(h, d, off, if b then [116, 114, 117, 101] else [102, 97, 108, 115, 101]);
    case Int(n) => IntRoundTripIff(h, d, off, n);
    case Float(bits) =>
      Powers();
      ReadsTag(d, off, NEW_FLOAT, Be(bits, 8));
      ReadsBe(d, off + 1, bits, 8);
    case Str(s) => StrDecodes(h, d, off, s);
  }

  // ---------------------------------------------------------------- containers, in the domain

  lemma {:induction false} EmplaceAppends(fields: seq<Field>, key: bytes, value: Json)
    requires forall i :: 0 <= i < |fields| ==> Less(fields[i].key, key)
    ensures Emplace(fields, key, value) == fields + [Field(key, value)]
    decreases |fields|
  {
    if fields != [] {
      LessAsymmetric(fields[0].key, key);
      LessIrreflexive(key);
      EmplaceAppends(fields[1..], key, value);
    }
  }

  /** Header and body of a non-empty list. */
  lemma {:induction false} ListAt(d: bytes, off: nat, items: seq<Json>)
    requires items != [] && |items| <= MAX_COUNT && At(d, off, Encode(Arr(items)))
    ensures ReadNum(d, off, 1) == Ok(LIST, off + 1) && ReadNum(d, off + 1, 4) == Ok(|items|, off + 5)
    ensures At(d, off + 5, EncodeItems(items)) && At(d, off + 5 + |EncodeItems(items)|, [NIL])
    ensures |Encode(Arr(items))| == 6 + |EncodeItems(items)|
  {
    hide EncodeItems, FromBe, Be;
    var body := EncodeItems(items) + [NIL];
    Powers();
    assert Encode(Arr(items)) == [LIST] + (Be(|items|, 4) + body);
    ReadsTag(d, off, LIST, Be(|items|, 4) + body);
    AtSplit(d, off + 1, Be(|items|, 4), body);
    ReadsBe(d, off + 1, |items|, 4);
    AtSplit(d, off + 5, EncodeItems(items), [NIL]);
  }

  lemma {:induction false} MapAt(d: bytes, off: nat, fields: seq<Field>)
    requires |fields| <= MAX_COUNT && At(d, off, Encode(Obj(fields)))
    ensures ReadNum(d, off, 1) == Ok(MAP, off + 1) && ReadNum(d, off + 1, 4) == Ok(|fields|, off + 5)
    ensures At(d, off + 5, EncodeFields(fields))
    ensures |Encode(Obj(fields))| == 5 + |EncodeFields(fields)|
  {
    Powers();
    assert Encode(Obj(fields)) == [MAP] + (Be(|fields|, 4) + EncodeFields(fields));
    ReadsTag(d, off, MAP, Be(|fields|, 4) + EncodeFields(fields));
    AtSplit(d, off + 1, Be(|fields|, 4), EncodeFields(fields));
    ReadsBe(d, off + 1, |fields|, 4);
  }

  lemma {:induction false} DecodesList(h: Host, d: bytes, off: nat, n: nat)
    requires off + 5 <= |d| && ReadNum(d, off, 1) == Ok(LIST, off + 1) && ReadNum(d, off + 1, 4) == Ok(n, off + 5)
    ensures var items := DecodeArray(h, d, off + 5, n);
            Decode(h, d, off) ==
            if items.Fail? then Fail(items.error) else
            var tail := ReadNum(d, items.next, 1);
            if tail.Fail? then Fail(tail.error) else
            Ok(if tail.value == NIL then Arr(items.value) else Null, tail.next)
  {
    assert Decode(h, d, off) == DecodeCompound(h, d, LIST, off + 1);
    assert DecodeCompound(h, d, LIST, off + 1) == DecodeList(h, d, off + 1);
  }

  lemma {:induction false} DecodesMap(h: Host, d: bytes, off: nat, n: nat)
    requires off + 5 <= |d| && ReadNum(d, off, 1) == Ok(MAP, off + 1) && ReadNum(d, off + 1, 4) == Ok(n, off + 5)
    ensures var fields := DecodeFields(h, d, off + 5, n, []);
            Decode(h, d, off) ==
            if fields.Fail? then Fail(fields.error) else Ok(if n == 0 then Null else Obj(fields.value), fields.next)
  {
    var fields := DecodeFields(h, d, off + 5, n, []);
    assert Decode(h, d, off) == DecodeCompound(h, d, MAP, off + 1);
    assert DecodeCompound(h, d, MAP, off + 1) == 
            if fields.Fail? then Fail(fields.error) else Ok(if n == 0 then Null else Obj(fields.value), fields.next);
  }

  /**
    Round trip: a value of the domain, encoded anywhere in an input, decodes to itself (large
    integers to their decimal text) and exactly its encoding is consumed.
    */
  lemma {:induction false} RoundTrip(h: Host, d: bytes, off: nat, j: Json)
    requires IsJson(j) && !TooLarge(j) && InDomain(j) && At(d, off, Encode(j))
    ensures Decode(h, d, off) == Ok(Norm(j), off + |Encode(j)|)
    decreases j, 1
  {
    hide Decode, DecodeCompound, DecodeLeaf, DecodeArray, DecodeFields, EncodeItems, EncodeFields;
    match j
    case Arr(items) =>
      ListAt(d, off, items);
      DecodesList(h, d, off, |items|);
      ItemsRoundTrip(h, d, off + 5, items);
      ReadsByte(d, off + 5 + |EncodeItems(items)|, NIL);
    case Obj(fields) =>
      MapAt(d, off, fields);
      DecodesMap(h, d, off, |fields|);
      FieldsRoundTrip(h, d, off + 5, fields, []);
      assert [] + NormFields(fields) == NormFields(fields);
    case _ => LeafRoundTripIff(h, d, off, j);
  }

  lemma {:induction false} ItemsRoundTrip(h: Host, d: bytes, off: nat, items: seq<Json>)
    requires ItemsAreJson(items) && !ItemsTooLarge(items)
    requires ItemsInDomain(items) && At(d, off, EncodeItems(items))
    ensures DecodeArray(h, d, off, |items|) == Ok(NormItems(items), off + |EncodeItems(items)|)
    decreases items, 0
  {
    hide Decode, DecodeCompound, DecodeLeaf, Encode;
    if items != [] {
      var o1 := off + |Encode(items[0])|;
      AtSplit(d, off, Encode(items[0]), EncodeItems(items[1..]));
      RoundTrip(h, d, off, items[0]);
      ItemsRoundTrip(h, d, o1, items[1..]);
      DecodesItem(h, d, off, |items|, Norm(items[0]), o1);
    }
  }

  lemma {:induction false} DecodesItem(h: Host, d: bytes, off: nat, n: nat, item: Json, o1: nat)
    requires off <= |d| && n > 0 && Decode(h, d, off) == Ok(item, o1)
    ensures var rest := DecodeArray(h, d, o1, n - 1);
            DecodeArray(h, d, off, n) == if rest.Fail? then Fail(rest.error) else Ok([item] + rest.value, rest.next)
  {
    hide Decode, DecodeCompound, DecodeLeaf;
  }

  /** `done` and `fields` together are in key order. */
  ghost predicate Continues(done: seq<Field>, fields: seq<Field>) {
    Ascending(fields) && forall i, j :: 0 <= i < |done| && 0 <= j < |fields| ==> Less(done[i].key, fields[j].key)
  }

  lemma {:induction false} ContinuesStep(done: seq<Field>, fields: seq<Field>, value: Json)
    requires fields != [] && Continues(done, fields)
    ensures Continues(done + [Field(fields[0].key, value)], fields[1..])
    ensures Emplace(done, fields[0].key, value) == done + [Field(fields[0].key, value)]
  {
    EmplaceAppends(done, fields[0].key, value);
  }

  lemma {:induction false} DecodesField(h: Host, d: bytes, off: nat, n: nat, done: seq<Field>, key: bytes, o1: nat,
                                        value: Json, o2: nat)
    requires off <= |d| && n > 0 && Decode(h, d, off) == Ok(Str(key), o1) && Decode(h, d, o1) == Ok(value, o2)
    ensures DecodeFields(h, d, off, n, done) == DecodeFields(h, d, o2, n - 1, Emplace(done, key, value))
  {
    hide Decode, DecodeCompound, DecodeLeaf;
  }

  /** The first field goes behind those already decoded. */
  lemma {:induction false} FieldStep(h: Host, d: bytes, off: nat, fields: seq<Field>, done: seq<Field>, v: Json,
                                     o2: nat)
    requires fields != [] && Continues(done, fields) && |fields[0].key| < TWO_32 && At(d, off, EncodeFields(fields))
    requires Decode(h, d, off + |EncodeStr(fields[0].key)|) == Ok(v, o2)
    ensures o2 <= |d|
    ensures DecodeFields(h, d, off, |fields|, done) ==
            DecodeFields(h, d, o2, |fields| - 1, done + [Field(fields[0].key, v)])
    ensures Continues(done + [Field(fields[0].key, v)], fields[1..])
  {
    hide Decode, DecodeCompound, DecodeLeaf, Encode, EncodeFields, DecodeFields, Emplace;
    FieldAt(h, d, off, fields);
    ContinuesStep(done, fields, v);
    DecodesField(h, d, off, |fields|, done, fields[0].key, off + |EncodeStr(fields[0].key)|, v, o2);
  }

  lemma {:induction false} FieldsRoundTrip(h: Host, d: bytes, off: nat, fields: seq<Field>, done: seq<Field>)
    requires FieldsAreJson(fields) && !FieldsTooLarge(fields)
    requires Continues(done, fields) && FieldsInDomain(fields) && At(d, off, EncodeFields(fields))
    ensures DecodeFields(h, d, off, |fields|, done) == Ok(done + NormFields(fields), off + |EncodeFields(fields)|)
    decreases fields, 0
  {
    hide Decode, DecodeCompound, DecodeLeaf, Encode, EncodeStr, NormFields;
    if fields == [] {
      assert done + NormFields(fields) == done;
      return;
    }
    var key, value := fields[0].key, fields[0].value;
    var o1 := off + |EncodeStr(key)|;
    FieldAt(h, d, off, fields);
    RoundTrip(h, d, o1, value);
    FieldStep(h, d, off, fields, done, Norm(value), o1 + |Encode(value)|);
    FieldsRoundTrip(h, d, o1 + |Encode(value)|, fields[1..], done + [Field(key, Norm(value))]);
    NormFieldsCons(done, fields);
  }

  lemma {:induction false} NormFieldsCons(done: seq<Field>, fields: seq<Field>)
    requires fields != []
    ensures (done + [Field(fields[0].key, Norm(fields[0].value))]) + NormFields(fields[1..])
         == done + NormFields(fields)
  {
  }

  /** The key of the first field decodes; its value and the further fields stand behind it. */
  lemma {:induction false} FieldAt(h: Host, d: bytes, off: nat, fields: seq<Field>)
    requires fields != [] && |fields[0].key| < TWO_32 && At(d, off, EncodeFields(fields))
    ensures var o1 := off + |EncodeStr(fields[0].key)|;
            var o2 := o1 + |Encode(fields[0].value)|;
            && Decode(h, d, off) == Ok(Str(fields[0].key), o1)
            && At(d, o1, Encode(fields[0].value))
            && At(d, o2, EncodeFields(fields[1..]))
            && off + |EncodeFields(fields)| == o2 + |EncodeFields(fields[1..])|
  {
    var f, tail := fields[0], fields[1..];
    AtSplit(d, off, EncodeStr(f.key), Encode(f.value) + EncodeFields(tail));
    AtSplit(d, off + |EncodeStr(f.key)|, Encode(f.value), EncodeFields(tail));
    StrDecodes(h, d, off, f.key);
  }

  /** Building and parsing. */
  lemma {:induction false} BuildThenParse(h: Host, j: Json)
    requires IsJson(j) && !TooLarge(j) && InDomain(j)
    ensures Parse(h, [FORMAT_VERSION] + Encode(j)) == Ok(Norm(j), 1 + |Encode(j)|)
    ensures SmallInts(j) ==> Parse(h, [FORMAT_VERSION] + Encode(j)).value == j
  {
    var d := [FORMAT_VERSION] + Encode(j);
    assert At(d, 0, d);
    ReadsTag(d, 0, FORMAT_VERSION, Encode(j));
    RoundTrip(h, d, 1, j);
    if SmallInts(j) { NormKeepsSmall(j); }
  }
}
