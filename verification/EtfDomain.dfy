/**
  Outside the round-trip domain the round trip fails, for every value: either another value comes
  back, or (an empty array was written with its extra list header) the parser stops short of the
  end of the encoding. What it then leaves unread is always a run of empty-list tokens, and such a
  run can only be read as further empty lists; that is why the parser never catches up.
  */
module EtfDomain {
  import opened Bytes
  import opened EtfTerm
  import opened EtfDecode
  import opened EtfRoundTrip

  const EMPTY_LIST: bytes := [LIST, 0, 0, 0, 0, NIL]

  /** A run of empty-list tokens: the nil marker, or a list header with count 0 and its tail. */
  ghost predicate Tokens(t: bytes)
    decreases |t|
  {
    t == [] || (t[0] == NIL && Tokens(t[1..])) || (EMPTY_LIST <= t && Tokens(t[6..]))
  }

  lemma {:induction false} TokensAppend(a: bytes, b: bytes)
    requires Tokens(a) && Tokens(b)
    ensures Tokens(a + b)
    decreases |a|
  {
    if a == [] {
      assert a + b == b;
    } else if a[0] == NIL {
      TokensAppend(a[1..], b);
      assert (a + b)[1..] == a[1..] + b;
    } else {
      TokensAppend(a[6..], b);
      assert (a + b)[6..] == a[6..] + b;
      assert (a + b)[..6] == a[..6] == EMPTY_LIST;
    }
  }

  /** The bytes from `from` up to `end`, at least one, are tokens: the parser stopped short of `end`. */
  ghost predicate Lags(d: bytes, from: nat, end: nat) {
    from < end <= |d| && Tokens(d[from..end])
  }

  lemma {:induction false} LagsFurther(d: bytes, from: nat, mid: nat, end: nat)
    requires from <= mid <= end <= |d| && from < end && Tokens(d[from..mid]) && Tokens(d[mid..end])
    ensures Lags(d, from, end)
  {
    TokensAppend(d[from..mid], d[mid..end]);
    assert d[from..end] == d[from..mid] + d[mid..end];
  }

  lemma {:induction false} DecodesNil(h: Host, d: bytes, off: nat)
    requires off < |d| && d[off] == NIL
    ensures Decode(h, d, off) == Ok(Arr([]), off + 1)
  {
    assert d[off..off + 1] == [NIL];
    ReadsByte(d, off, NIL);
  }

  lemma {:induction false} DecodesEmptyList(h: Host, d: bytes, off: nat)
    requires At(d, off, EMPTY_LIST)
    ensures Decode(h, d, off) == Ok(Arr([]), off + 6)
  {
    assert Be(0, 4) == [0, 0, 0, 0] by { assert Be(0, 2) == [0, 0]; }
    assert EMPTY_LIST == [LIST] + (Be(0, 4) + [NIL]);
    ReadsTag(d, off, LIST, Be(0, 4) + [NIL]);
    AtSplit(d, off + 1, Be(0, 4), [NIL]);
    Powers();
    ReadsBe(d, off + 1, 0, 4);
    ReadsByte(d, off + 5, NIL);
    DecodesList(h, d, off, 0);
  }

  /** Reading on inside a lag gives an empty list and stays inside. */
  lemma {:induction false} LagDecodes(h: Host, d: bytes, from: nat, end: nat)
    requires Lags(d, from, end)
    ensures var r := Decode(h, d, from);
            r.Ok? && r.value == Arr([]) && from < r.next <= end && Tokens(d[r.next..end])
  {
    hide Decode;
    var t := d[from..end];
    if t[0] == NIL {
      DecodesNil(h, d, from);
      assert t[1..] == d[from + 1..end];
    } else {
      assert d[from..from + 6] == t[..6] == EMPTY_LIST;
      DecodesEmptyList(h, d, from);
      assert t[6..] == d[from + 6..end];
    }
  }

  lemma {:induction false} EmptyArrayEncoding()
    ensures Encode(Arr([])) == [NIL] + EMPTY_LIST
    ensures Tokens(EMPTY_LIST) && Tokens(Encode(Arr([])))
  {
    assert Be(0, 4) == [0, 0, 0, 0] by { assert Be(0, 2) == [0, 0]; }
    assert Encode(Arr([])) == ListHeader(0) + (EncodeItems([]) + [NIL]);
    assert EMPTY_LIST[6..] == [];
    assert ([NIL] + EMPTY_LIST)[1..] == EMPTY_LIST;
  }

  // ---------------------------------------------------------------- arrays

  lemma {:induction false} NormItemsCons(items: seq<Json>, v: Json, vs: seq<Json>)
    requires items != []
    ensures [v] + vs == NormItems(items) <==> v == Norm(items[0]) && vs == NormItems(items[1..])
  {
    assert NormItems(items) == [Norm(items[0])] + NormItems(items[1..]);
    assert ([v] + vs)[0] == v && ([v] + vs)[1..] == vs;
    assert ([Norm(items[0])] + NormItems(items[1..]))[1..] == NormItems(items[1..]);
  }

  lemma {:induction false} NormEmptyArray(j: Json)
    ensures Norm(j) == Arr([]) <==> j == Arr([])
  {
    if j.Arr? { assert |NormItems(j.items)| == |j.items|; }
  }

  /** Decoding one item of an array, and what the whole must be to equal `NormItems`. */
  lemma {:induction false} ItemStep(h: Host, d: bytes, off: nat, items: seq<Json>, v: Json, o: nat)
    requires items != [] && off <= |d| && Decode(h, d, off) == Ok(v, o)
    ensures o <= |d|
    ensures var r, rest := DecodeArray(h, d, off, |items|), DecodeArray(h, d, o, |items| - 1);
            r.Ok? && r.value == NormItems(items) ==>
              v == Norm(items[0]) && rest.Ok? && rest.value == NormItems(items[1..]) && r.next == rest.next
  {
    DecodesItem(h, d, off, |items|, v, o);
    var rest := DecodeArray(h, d, o, |items| - 1);
    if rest.Ok? { NormItemsCons(items, v, rest.value); }
  }

  lemma {:induction false} LagOverEmpty(d: bytes, o: nat, end: nat)
    requires o <= end <= |d| && Tokens(d[o..end]) && At(d, end, Encode(Arr([])))
    ensures |Encode(Arr([]))| == 7 && Lags(d, o, end + 7)
  {
    EmptyArrayEncoding();
    LagsFurther(d, o, end, end + 7);
  }

  lemma {:induction false} ItemsLag(h: Host, d: bytes, from: nat, end: nat, items: seq<Json>)
    requires Lags(d, from, end) && At(d, end, EncodeItems(items))
    ensures var r := DecodeArray(h, d, from, |items|);
            r.Ok? && r.value == NormItems(items) ==> Lags(d, r.next, end + |EncodeItems(items)|)
    decreases |items|
  {
    hide Decode, DecodeCompound, DecodeLeaf, Encode, Norm, NormItems, Tokens, At, Lags;
    if items != [] {
      LagDecodes(h, d, from, end);
      var o := Decode(h, d, from).next;
      ItemStep(h, d, from, items, Arr([]), o);
      NormEmptyArray(items[0]);
      if items[0] == Arr([]) {
        AtSplit(d, end, Encode(items[0]), EncodeItems(items[1..]));
        LagOverEmpty(d, o, end);
        ItemsLag(h, d, o, end + 7, items[1..]);
      }
    }
  }

  lemma {:induction false} ItemsOut(h: Host, d: bytes, off: nat, items: seq<Json>)
    requires ItemsAreJson(items) && !ItemsTooLarge(items) && !ItemsInDomain(items) && At(d, off, EncodeItems(items))
    ensures var r := DecodeArray(h, d, off, |items|);
            r.Ok? && r.value == NormItems(items) ==> Lags(d, r.next, off + |EncodeItems(items)|)
    decreases items, 0
  {
    hide Decode, DecodeCompound, DecodeLeaf, Encode, Norm, NormItems, InDomain, IsJson, TooLarge, Lags, Tokens, At;
    var o1 := off + |Encode(items[0])|;
    AtSplit(d, off, Encode(items[0]), EncodeItems(items[1..]));
    var first := Decode(h, d, off);
    if InDomain(items[0]) {
      RoundTrip(h, d, off, items[0]);
      ItemsOut(h, d, o1, items[1..]);
    } else {
      OutOfDomain(h, d, off, items[0]);
      if first.Ok? && first.value == Norm(items[0]) {
        ItemsLag(h, d, first.next, o1, items[1..]);
      }
    }
    if first.Ok? { ItemStep(h, d, off, items, first.value, first.next); }
  }

  /** A list whose items lag has its tail read from the lag: no nil there, or still short of the end. */
  lemma {:induction false} ListLag(d: bytes, from: nat, end: nat)
    requires Lags(d, from, end) && At(d, end, [NIL])
    ensures ReadNum(d, from, 1).Ok? && (ReadNum(d, from, 1).value == NIL ==> Lags(d, from + 1, end + 1))
  {
    ReadsByte(d, end, NIL);
    assert d[from..from + 1] == [d[from]];
    ReadsByte(d, from, d[from]);
    if d[from] == NIL {
      assert d[from..end][0] == NIL && d[from..end][1..] == d[from + 1..end];
      assert d[end..end + 1] == [NIL] && Tokens([NIL]) by { assert [NIL][1..] == []; }
      LagsFurther(d, from + 1, end, end + 1);
    }
  }

  lemma {:induction false} ArrOut(h: Host, d: bytes, off: nat, items: seq<Json>)
    requires IsJson(Arr(items)) && !TooLarge(Arr(items)) && !InDomain(Arr(items)) && At(d, off, Encode(Arr(items)))
    ensures var r := Decode(h, d, off);
            r.Ok? && r.value == Norm(Arr(items)) ==> Lags(d, r.next, off + |Encode(Arr(items))|)
    decreases items, 1
  {
    hide Decode, DecodeCompound, DecodeLeaf, DecodeArray, EncodeItems;
    if items == [] {
      EmptyArrayEncoding();
      AtSplit(d, off, [NIL], EMPTY_LIST);
      assert d[off] == d[off..off + 1][0];
      DecodesNil(h, d, off);
    } else {
      ListAt(d, off, items);
      DecodesList(h, d, off, |items|);
      ItemsOut(h, d, off + 5, items);
      var r := DecodeArray(h, d, off + 5, |items|);
      if r.Ok? && r.value == NormItems(items) {
        ListLag(d, r.next, off + 5 + |EncodeItems(items)|);
      }
    }
  }

  // ---------------------------------------------------------------- objects

  lemma {:induction false} FromLeRange(s: bytes)
    ensures FromLe(s) < Pow256(|s|)
  {
    if s != [] { FromLeRange(s[1..]); }
  }

  lemma {:induction false} Pow256Monotone(a: nat, b: nat)
    requires a <= b
    ensures Pow256(a) <= Pow256(b)
    decreases b
  {
    if a < b { Pow256Monotone(a, b - 1); }
  }

  lemma {:induction false} BigIntTextShort(sign: byte, s: bytes)
    requires |s| <= 8
    ensures |BigIntText(sign, FromLe(s))| < TWO_32
  {
    FromLeRange(s);
    Pow256Monotone(|s|, 8);
    Powers();
    var v: int := FromLe(s);
    DecimalShort(v);
    DecimalShort(Wrap64(-v));
  }

  lemma {:induction false} BigIntShort(d: bytes, off: nat, digits: nat)
    ensures var r := DecodeBigInt(d, off, digits); r.Ok? ==> r.value.Str? && |r.value.s| < TWO_32
  {
    if DecodeBigInt(d, off, digits).Ok? {
      BigIntTextShort(ReadNum(d, off, 1).value, d[off + 1..off + 1 + digits]);
    }
  }

  lemma {:induction false} LeafStrShort(h: Host, d: bytes, tag: byte, off: nat)
    requires off <= |d|
    ensures var r := DecodeLeaf(h, d, tag, off); r.Ok? && r.value.Str? ==> |r.value.s| < TWO_32
  {
    Powers();
    if tag == BIGINT_SMALL && ReadNum(d, off, 1).Ok? {
      BigIntShort(d, off + 1, ReadNum(d, off, 1).value);
    } else if tag == BIGINT_LARGE && ReadNum(d, off, 4).Ok? {
      BigIntShort(d, off + 4, ReadNum(d, off, 4).value);
    }
  }

  lemma {:induction false} CompoundIsNoStr(h: Host, d: bytes, tag: byte, off: nat)
    requires off <= |d| && IsCompound(tag)
    ensures var r := DecodeCompound(h, d, tag, off); r.Ok? ==> !r.value.Str?
  {
  }

  /** No decoded string is longer than a 32-bit length can say. */
  lemma {:induction false} DecodedStrShort(h: Host, d: bytes, off: nat)
    requires off <= |d|
    ensures var r := Decode(h, d, off); r.Ok? && r.value.Str? ==> |r.value.s| < TWO_32
  {
    Powers();
    if off < |d| {
      var tag := ReadNum(d, off, 1).value;
      if IsCompound(tag) { CompoundIsNoStr(h, d, tag, off + 1); } else { LeafStrShort(h, d, tag, off + 1); }
    }
  }

  lemma {:induction false} KeyShort(h: Host, d: bytes, off: nat)
    requires off <= |d|
    ensures var r := Decode(h, d, off);
            r.Ok? && KeyText(h, r.value).Some? ==> |KeyText(h, r.value).value| < TWO_32
  {
    DecodedStrShort(h, d, off);
    var r := Decode(h, d, off);
    if r.Ok? && r.value.Int? { DecimalShort(r.value.n % TWO_64); }
    if r.Ok? && r.value.Float? { DecimalShort(h.doubleToUint64(r.value.bits) % TWO_64); }
  }

  /** Decoding fields keeps those already there and adds only short keys. */
  lemma {:induction false} FieldsKept(h: Host, d: bytes, off: nat, n: nat, done: seq<Field>)
    requires off <= |d|
    ensures var r := DecodeFields(h, d, off, n, done);
            r.Ok? ==>
                (forall f :: f in done ==> f in r.value) && (forall f :: f in r.value ==> f in done || |f.key| < TWO_32)
    decreases n
  {
    hide Decode, DecodeCompound, DecodeLeaf, Emplace;
    if n > 0 {
      var key := Decode(h, d, off);
      KeyShort(h, d, off);
      if key.Ok? && KeyText(h, key.value).Some? {
        var value := Decode(h, d, key.next);
        if value.Ok? {
          FieldsKept(h, d, value.next, n - 1, Emplace(done, KeyText(h, key.value).value, value.value));
        }
      }
    }
  }

  /** In `done + NormFields(fields)` the key of fields[0] belongs to its field alone. */
  lemma {:induction false} FirstKeyUnique(done: seq<Field>, fields: seq<Field>, f: Field)
    requires fields != [] && Continues(done, fields) && f.key == fields[0].key
    requires f in done + NormFields(fields)
    ensures f !in done && f == Field(fields[0].key, Norm(fields[0].value))
  {
    LessIrreflexive(f.key);
    var norms := NormFields(fields);
    forall i | 0 <= i < |done| ensures done[i].key != f.key { assert Less(done[i].key, fields[0].key); }
    forall i | 1 <= i < |norms| ensures norms[i].key != f.key { assert Less(fields[0].key, fields[i].key); }
    assert f in norms;
    assert norms[0] == Field(fields[0].key, Norm(fields[0].value));
  }

  /** A key too long for its length field never arrives. */
  lemma {:induction false} LongKeyLost(h: Host, d: bytes, off: nat, n: nat, fields: seq<Field>, done: seq<Field>)
    requires off <= |d| && fields != [] && Continues(done, fields) && |fields[0].key| >= TWO_32
    ensures DecodeFields(h, d, off, n, done).Ok? ==> DecodeFields(h, d, off, n, done).value != done + NormFields(fields)
  {
    FieldsKept(h, d, off, n, done);
    var f := NormFields(fields)[0];
    assert (done + NormFields(fields))[|done|] == f;
    FirstKeyUnique(done, fields, f);
  }

  lemma {:induction false} FieldsOut(h: Host, d: bytes, off: nat, fields: seq<Field>, done: seq<Field>)
    requires FieldsAreJson(fields) && !FieldsTooLarge(fields) && !FieldsInDomain(fields)
    requires Continues(done, fields) && At(d, off, EncodeFields(fields))
    ensures var r := DecodeFields(h, d, off, |fields|, done);
            r.Ok? && r.value == done + NormFields(fields) ==> Lags(d, r.next, off + |EncodeFields(fields)|)
    decreases fields, 0
  {
    hide Decode, DecodeCompound, DecodeLeaf, DecodeFields, Encode, EncodeFields, EncodeStr, NormFields;
    if |fields[0].key| >= TWO_32 {
      LongKeyLost(h, d, off, |fields|, fields, done);
      return;
    }
    var value := fields[0].value;
    FieldAt(h, d, off, fields);
    var o1 := off + |EncodeStr(fields[0].key)|;
    var o2 := o1 + |Encode(value)|;
    if InDomain(value) {
      RoundTrip(h, d, o1, value);
      FieldStep(h, d, off, fields, done, Norm(value), o2);
      FieldsOut(h, d, o2, fields[1..], done + [Field(fields[0].key, Norm(value))]);
      NormFieldsCons(done, fields);
    } else {
      OutOfDomain(h, d, o1, value);
      if Decode(h, d, o1).Ok? {
        BadValue(h, d, off, fields, done, o2);
      } else {
        ValueFails(h, d, off, |fields|, done, fields[0].key, o1);
      }
    }
  }

  lemma {:induction false} ValueFails(h: Host, d: bytes, off: nat, n: nat, done: seq<Field>, key: bytes, o1: nat)
    requires off <= |d| && n > 0 && Decode(h, d, off) == Ok(Str(key), o1) && Decode(h, d, o1).Fail?
    ensures DecodeFields(h, d, off, n, done).Fail?
  {
    hide Decode, DecodeCompound, DecodeLeaf;
  }

  /** The first value outside the domain: it stays as the wrong value, or what follows starts in its lag. */
  lemma {:induction false} BadValue(h: Host, d: bytes, off: nat, fields: seq<Field>, done: seq<Field>, o2: nat)
    requires fields != [] && Continues(done, fields) && |fields[0].key| < TWO_32 && At(d, off, EncodeFields(fields))
    requires o2 == off + |EncodeStr(fields[0].key)| + |Encode(fields[0].value)| && o2 <= |d|
    requires var v := Decode(h, d, off + |EncodeStr(fields[0].key)|);
             v.Ok? && (v.value == Norm(fields[0].value) ==> Lags(d, v.next, o2))
    ensures var r := DecodeFields(h, d, off, |fields|, done);
            r.Ok? && r.value == done + NormFields(fields) ==> Lags(d, r.next, off + |EncodeFields(fields)|)
  {
    hide Decode, DecodeCompound, DecodeLeaf, Encode, EncodeStr, NormFields;
    var v := Decode(h, d, off + |EncodeStr(fields[0].key)|);
    FieldAt(h, d, off, fields);
    FieldStep(h, d, off, fields, done, v.value, v.next);
    if v.value != Norm(fields[0].value) {
      BadValueStays(h, d, v.next, fields, done, v.value);
    } else if |fields| > 1 {
      LagIsNoKey(h, d, v.next, o2, |fields| - 1, done + [Field(fields[0].key, v.value)]);
    }
  }

  /** A value that came back wrong stays in the object. */
  lemma {:induction false} BadValueStays(h: Host, d: bytes, off: nat, fields: seq<Field>, done: seq<Field>, v: Json)
    requires off <= |d| && fields != [] && Continues(done, fields) && v != Norm(fields[0].value)
    ensures var r := DecodeFields(h, d, off, |fields| - 1, done + [Field(fields[0].key, v)]);
            r.Ok? ==> r.value != done + NormFields(fields)
  {
    hide Decode, DecodeCompound, DecodeLeaf, DecodeFields, Less;
    var next := done + [Field(fields[0].key, v)];
    FieldsKept(h, d, off, |fields| - 1, next);
    assert next[|done|] == Field(fields[0].key, v);
    var r := DecodeFields(h, d, off, |fields| - 1, next);
    if r.Ok? && r.value == done + NormFields(fields) {
      FirstKeyUnique(done, fields, Field(fields[0].key, v));
    }
  }

  /** Inside a lag the next key would be an empty list. */
  lemma {:induction false} LagIsNoKey(h: Host, d: bytes, from: nat, end: nat, n: nat, done: seq<Field>)
    requires Lags(d, from, end) && n > 0
    ensures DecodeFields(h, d, from, n, done).Fail?
  {
    hide Decode, DecodeCompound, DecodeLeaf;
    LagDecodes(h, d, from, end);
  }

  // ---------------------------------------------------------------- all values

  lemma {:induction false} OutOfDomain(h: Host, d: bytes, off: nat, j: Json)
    requires IsJson(j) && !TooLarge(j) && !InDomain(j) && At(d, off, Encode(j))
    ensures var r := Decode(h, d, off);
            r.Ok? && r.value == Norm(j) ==> Lags(d, r.next, off + |Encode(j)|)
    decreases j, 1
  {
    hide Decode, DecodeCompound, DecodeLeaf;
    match j
    case Arr(items) => ArrOut(h, d, off, items);
    case Obj(fields) => ObjOut(h, d, off, fields);
    case _ => LeafRoundTripIff(h, d, off, j);
  }

  lemma {:induction false} ObjOut(h: Host, d: bytes, off: nat, fields: seq<Field>)
    requires IsJson(Obj(fields)) && !TooLarge(Obj(fields)) && !InDomain(Obj(fields)) && At(d, off, Encode(Obj(fields)))
    ensures var r := Decode(h, d, off);
            r.Ok? && r.value == Norm(Obj(fields)) ==> Lags(d, r.next, off + |Encode(Obj(fields))|)
    decreases fields, 1
  {
    hide Decode, DecodeCompound, DecodeLeaf, DecodeFields, EncodeFields;
    MapAt(d, off, fields);
    DecodesMap(h, d, off, |fields|);
    if fields != [] {
      FieldsOut(h, d, off + 5, fields, []);
      assert [] + NormFields(fields) == NormFields(fields);
    }
  }

  /**
    Exactly the domain: the encoding of j, anywhere in an input, is decoded to j (large integers as
    text) and consumed to its last byte if and only if j is in the domain.
    */
  lemma {:induction false} RoundTripIff(h: Host, d: bytes, off: nat, j: Json)
    requires IsJson(j) && !TooLarge(j) && At(d, off, Encode(j))
    ensures Decode(h, d, off) == Ok(Norm(j), off + |Encode(j)|) <==> InDomain(j)
  {
    if InDomain(j) {
      RoundTrip(h, d, off, j);
    } else {
      OutOfDomain(h, d, off, j);
    }
  }

  // ---------------------------------------------------------------- what is lost

  /** An empty array comes back, but only the first of its seven bytes is consumed. */
  lemma {:induction false} EmptyArrayStopsShort(h: Host)
    ensures |Encode(Arr([]))| == 7 && Decode(h, Encode(Arr([])), 0) == Ok(Arr([]), 1)
  {
    EmptyArrayEncoding();
    DecodesNil(h, Encode(Arr([])), 0);
  }

  /** So an array that holds one comes back as null: its tail is looked for inside the item. */
  lemma {:induction false} NestedEmptyArrayIsLost(h: Host)
    ensures Decode(h, Encode(Arr([Arr([])])), 0) == Ok(Null, 7)
  {
    var items := [Arr([])];
    var d := Encode(Arr(items));
    EmptyArrayEncoding();
    ListAt(d, 0, items);
    assert EncodeItems(items) == [NIL] + EMPTY_LIST by {
      assert EncodeItems(items) == Encode(items[0]) + EncodeItems(items[1..]);
      assert EncodeItems(items[1..]) == [];
    }
    AtSplit(d, 5, [NIL], EMPTY_LIST);
    assert d[5] == d[5..6][0] == NIL && d[6] == d[6..12][0] == LIST;
    DecodesNil(h, d, 5);
    assert DecodeArray(h, d, 6, 0) == Ok([], 6);
    DecodesItem(h, d, 5, 1, Arr([]), 6);
    assert d[6..7] == [LIST];
    ReadsByte(d, 6, LIST);
    DecodesList(h, d, 0, 1);
  }

  /** An empty object comes back as null. */
  lemma {:induction false} EmptyObjectIsLost(h: Host)
    ensures Decode(h, Encode(Obj([])), 0) == Ok(Null, 5)
  {
    MapAt(Encode(Obj([])), 0, []);
    DecodesMap(h, Encode(Obj([])), 0, 0);
    assert DecodeFields(h, Encode(Obj([])), 5, 0, []) == Ok([], 5);
  }
}
