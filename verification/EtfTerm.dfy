/**
  JSON values and their encoding in the Erlang External Term Format, as the builder writes them.
  The format is the "External Term Format" chapter of the Erlang/OTP ERTS User's Guide.
  */
module EtfTerm {
  import opened Bytes

  type bytes = seq<byte>

  /** A JSON value; a float is its 64 bits, an object its fields in key order. */
  datatype Json =
    | Null
    | Bool(b: bool)
    | Int(n: int)
    | Float(bits: nat)
    | Str(s: bytes)
    | Arr(items: seq<Json>)
    | Obj(fields: seq<Field>)

  datatype Field = Field(key: bytes, value: Json)

  const TWO_31: int := 0x8000_0000
  const TWO_32: int := 0x1_0000_0000
  const TWO_63: int := 0x8000_0000_0000_0000
  const TWO_64: int := 0x1_0000_0000_0000_0000

  const FORMAT_VERSION: byte := 131
  const MAX_COUNT: int := TWO_32 - 2

  // Tags
  const NEW_FLOAT: byte := 70
  const COMPRESSED: byte := 80
  const DISTRIBUTION: byte := 68
  const SMALL_INT: byte := 97
  const INTEGER: byte := 98
  const FLOAT_TEXT: byte := 99
  const ATOM: byte := 100
  const REFERENCE: byte := 101
  const PORT: byte := 102
  const PID: byte := 103
  const SMALL_TUPLE: byte := 104
  const LARGE_TUPLE: byte := 105
  const NIL: byte := 106
  const STRING: byte := 107
  const LIST: byte := 108
  const BINARY: byte := 109
  const BIGINT_SMALL: byte := 110
  const BIGINT_LARGE: byte := 111
  const EXPORT: byte := 113
  const NEW_REFERENCE: byte := 114
  const ATOM_SMALL: byte := 115
  const MAP: byte := 116

  // ---------------------------------------------------------------- keys in std::string order

  predicate Less(a: bytes, b: bytes) {
    b != [] && (a == [] || a[0] < b[0] || (a[0] == b[0] && Less(a[1..], b[1..])))
  }

  lemma {:induction false} LessIrreflexive(a: bytes)
    ensures !Less(a, a)
    decreases |a|
  {
    if a != [] { LessIrreflexive(a[1..]); }
  }

  lemma {:induction false} LessAsymmetric(a: bytes, b: bytes)
    requires Less(a, b)
    ensures !Less(b, a)
    decreases |a|
  {
    if a != [] && a[0] == b[0] { LessAsymmetric(a[1..], b[1..]); }
  }

  ghost predicate Ascending(fields: seq<Field>) {
    forall i, j :: 0 <= i < j < |fields| ==> Less(fields[i].key, fields[j].key)
  }

  /** What a json object can hold: 64-bit integers (signed or unsigned), 64-bit floats, sorted keys. */
  ghost predicate IsJson(j: Json)
    decreases j, 1
  {
    match j
    case Int(n) => -TWO_63 <= n < TWO_64
    case Float(bits) => bits < TWO_64
    case Arr(items) => ItemsAreJson(items)
    case Obj(fields) => Ascending(fields) && FieldsAreJson(fields)
    case _ => true
  }

  ghost predicate ItemsAreJson(items: seq<Json>)
    decreases items, 0
  {
    items == [] || (IsJson(items[0]) && ItemsAreJson(items[1..]))
  }

  ghost predicate FieldsAreJson(fields: seq<Field>)
    decreases fields, 0
  {
    fields == [] || (IsJson(fields[0].value) && FieldsAreJson(fields[1..]))
  }

  // ---------------------------------------------------------------- encoding

  /** Little-endian digits, as many as needed. */
  function Le(n: nat): (s: bytes) {
    if n == 0 then [] else [n % 256] + Le(n / 256)
  }

  function FromLe(s: bytes): (n: nat) {
    if s == [] then 0 else s[0] + 256 * FromLe(s[1..])
  }

  lemma {:induction false} FromLeOfLe(n: nat)
    ensures FromLe(Le(n)) == n
  {
    if n > 0 { FromLeOfLe(n / 256); }
  }

  lemma {:induction false} LeLength(n: nat, k: nat)
    requires n < Pow256(k)
    ensures |Le(n)| <= k
    decreases k
  {
    if n > 0 { LeLength(n / 256, k - 1); }
  }

  /** i->get<int64_t>() */
  function ToInt64(n: int): int {
    if n >= TWO_63 then n - TWO_64 else n
  }

  function EncodeInt(n: int): bytes {
    var number := ToInt64(n);
    if 0 <= number <= 127 then [SMALL_INT, number]
    else if number >= TWO_32 - 2 then [BIGINT_SMALL, |Le(number)| % 256, 0] + Le(number)
    else [INTEGER] + Be(number % TWO_32, 4)
  }

  const NIL_ATOM: bytes := [ATOM_SMALL, 3, 110, 105, 108]
  const TRUE_ATOM: bytes := [ATOM_SMALL, 4, 116, 114, 117, 101]
  const FALSE_ATOM: bytes := [ATOM_SMALL, 5, 102, 97, 108, 115, 101]

  /** The length is stored as a uint32_t. */
  function EncodeStr(s: bytes): bytes {
    [BINARY] + Be(|s| % TWO_32, 4) + s
  }

  /** An empty array gets its own marker and the list header as well. */
  function ListHeader(n: nat): bytes {
    (if n == 0 then [NIL] else []) + [LIST] + Be(n, 4)
  }

  function Encode(j: Json): (s: bytes)
    ensures |s| >= 1
    decreases j, 1
  {
    match j
    case Null => NIL_ATOM
    case Bool(b) => if b then TRUE_ATOM else FALSE_ATOM
    case Int(n) => EncodeInt(n)
    case Float(bits) => [NEW_FLOAT] + Be(bits, 8)
    case Str(t) => EncodeStr(t)
    case Arr(items) => ListHeader(|items|) + (EncodeItems(items) + [NIL])
    case Obj(fields) => [MAP] + Be(|fields|, 4) + EncodeFields(fields)
  }

  function EncodeItems(items: seq<Json>): (s: bytes)
    decreases items, 0
  {
    if items == [] then [] else Encode(items[0]) + EncodeItems(items[1..])
  }

  function EncodeFields(fields: seq<Field>): (s: bytes)
    decreases fields, 0
  {
    if fields == [] then []
    else EncodeStr(fields[0].key) + (Encode(fields[0].value) + EncodeFields(fields[1..]))
  }

  /** Somewhere an array or object has more elements than the builder accepts: it throws. */
  predicate TooLarge(j: Json)
    decreases j, 1
  {
    match j
    case Arr(items) => |items| > MAX_COUNT || ItemsTooLarge(items)
    case Obj(fields) => |fields| > MAX_COUNT || FieldsTooLarge(fields)
    case _ => false
  }

  predicate ItemsTooLarge(items: seq<Json>)
    decreases items, 0
  {
    items != [] && (TooLarge(items[0]) || ItemsTooLarge(items[1..]))
  }

  predicate FieldsTooLarge(fields: seq<Field>)
    decreases fields, 0
  {
    fields != [] && (TooLarge(fields[0].value) || FieldsTooLarge(fields[1..]))
  }

  /** A value somewhere in j, or j itself. */
  predicate Part(p: Json, j: Json)
    decreases j
  {
    || p == j
    || match j
       case Arr(items) => exists i :: 0 <= i < |items| && Part(p, items[i])
       case Obj(fields) => exists i :: 0 <= i < |fields| && Part(p, fields[i].value)
       case _ => false
  }

  predicate Oversized(p: Json) {
    match p
    case Arr(items) => |items| > 0xffff_fffe
    case Obj(fields) => |fields| > 0xffff_fffe
    case _ => false
  }

  /** The builder refuses exactly the values with an oversized array or object in them. */
  lemma {:induction false} TooLargeIff(j: Json)
    ensures TooLarge(j) <==> exists p :: Part(p, j) && Oversized(p)
    decreases j, 1
  {
    assert Part(j, j);
    match j
    case Arr(items) => ItemsTooLargeIff(items);
    case Obj(fields) => FieldsTooLargeIff(fields);
    case _ =>
  }

  lemma {:induction false} ItemsTooLargeIff(items: seq<Json>)
    ensures ItemsTooLarge(items) <==> exists i, p :: 0 <= i < |items| && Part(p, items[i]) && Oversized(p)
    decreases items, 0
  {
    if items != [] {
      TooLargeIff(items[0]);
      ItemsTooLargeIff(items[1..]);
      assert forall i :: 0 <= i < |items| - 1 ==> items[1..][i] == items[i + 1];
      hide Part, Oversized;
      if ItemsTooLarge(items[1..]) {
        var i, p :| 0 <= i < |items| - 1 && Part(p, items[1..][i]) && Oversized(p);
        assert Part(p, items[i + 1]);
      }
      if i, p :| 0 < i < |items| && Part(p, items[i]) && Oversized(p) {
        assert Part(p, items[1..][i - 1]);
      }
    }
  }

  lemma {:induction false} FieldsTooLargeIff(fields: seq<Field>)
    ensures FieldsTooLarge(fields) <==> exists i, p :: 0 <= i < |fields| && Part(p, fields[i].value) && Oversized(p)
    decreases fields, 0
  {
    if fields != [] {
      TooLargeIff(fields[0].value);
      FieldsTooLargeIff(fields[1..]);
      assert forall i :: 0 <= i < |fields| - 1 ==> fields[1..][i] == fields[i + 1];
      hide Part, Oversized;
      if FieldsTooLarge(fields[1..]) {
        var i, p :| 0 <= i < |fields| - 1 && Part(p, fields[1..][i].value) && Oversized(p);
        assert Part(p, fields[i + 1].value);
      }
      if i, p :| 0 < i < |fields| && Part(p, fields[i].value) && Oversized(p) {
        assert Part(p, fields[1..][i - 1].value);
      }
    }
  }

  // ---------------------------------------------------------------- what comes back

  function Digits(n: nat): (s: bytes)
    ensures s != []
  {
    var d: byte := 48 + n % 10;
    if n < 10 then [d] else Digits(n / 10) + [d]
  }

  /** std::to_string */
  function Decimal(n: int): bytes {
    if n < 0 then [45] + Digits(-n) else Digits(n)
  }

  function Pow10(k: nat): nat { if k == 0 then 1 else 10 * Pow10(k - 1) }

  lemma {:induction false} DigitsLength(n: nat, k: nat)
    requires k >= 1 && n < Pow10(k)
    ensures |Digits(n)| <= k
    decreases k
  {
    if n >= 10 { DigitsLength(n / 10, k - 1); }
  }

  lemma {:induction false} DecimalShort(n: int)
    requires -TWO_64 < n < TWO_64
    ensures |Decimal(n)| <= 21
  {
    assert Pow10(4) == 10_000;
    assert Pow10(8) == 100_000_000;
    assert Pow10(12) == 1_000_000_000_000;
    assert Pow10(16) == 10_000_000_000_000_000;
    assert Pow10(20) == 100_000_000_000_000_000_000;
    DigitsLength(if n < 0 then -n else n, 20);
  }

  /** The value the parser makes of j's encoding: large integers arrive as decimal text. */
  function Norm(j: Json): (r: Json)
    decreases j, 1
  {
    match j
    case Int(n) => if n >= TWO_32 - 2 then Str(Decimal(n)) else j
    case Arr(items) => Arr(NormItems(items))
    case Obj(fields) => Obj(NormFields(fields))
    case _ => j
  }

  function NormItems(items: seq<Json>): (r: seq<Json>)
    ensures |r| == |items|
    decreases items, 0
  {
    if items == [] then [] else [Norm(items[0])] + NormItems(items[1..])
  }

  function NormFields(fields: seq<Field>): (r: seq<Field>)
    ensures |r| == |fields|
    ensures forall i :: 0 <= i < |r| ==> r[i].key == fields[i].key
    decreases fields, 0
  {
    if fields == [] then [] else [Field(fields[0].key, Norm(fields[0].value))] + NormFields(fields[1..])
  }

  predicate IntSurvives(n: int) { -TWO_31 <= n < TWO_31 || TWO_32 - 2 <= n < TWO_63 }

  /** The round-trip domain: no empty container, no integer the 32-bit form cuts, no length over 32 bits. */
  predicate InDomain(j: Json)
    decreases j, 1
  {
    match j
    case Int(n) => IntSurvives(n)
    case Str(s) => |s| < TWO_32
    case Arr(items) => items != [] && ItemsInDomain(items)
    case Obj(fields) => fields != [] && FieldsInDomain(fields)
    case _ => true
  }

  predicate ItemsInDomain(items: seq<Json>)
    decreases items, 0
  {
    items == [] || (InDomain(items[0]) && ItemsInDomain(items[1..]))
  }

  predicate FieldsInDomain(fields: seq<Field>)
    decreases fields, 0
  {
    fields == [] || (|fields[0].key| < TWO_32 && InDomain(fields[0].value) && FieldsInDomain(fields[1..]))
  }

  /** Only 32-bit integers: such a value comes back as it went. */
  predicate SmallInts(j: Json)
    decreases j, 1
  {
    match j
    case Int(n) => -TWO_31 <= n < TWO_31
    case Arr(items) => SmallItems(items)
    case Obj(fields) => SmallFields(fields)
    case _ => true
  }

  predicate SmallItems(items: seq<Json>)
    decreases items, 0
  {
    items == [] || (SmallInts(items[0]) && SmallItems(items[1..]))
  }

  predicate SmallFields(fields: seq<Field>)
    decreases fields, 0
  {
    fields == [] || (SmallInts(fields[0].value) && SmallFields(fields[1..]))
  }

  lemma {:induction false} NormKeepsSmall(j: Json)
    requires SmallInts(j)
    ensures Norm(j) == j
    decreases j, 1
  {
    match j
    case Arr(items) => NormKeepsItems(items);
    case Obj(fields) => NormKeepsFields(fields);
    case _ =>
  }

  lemma {:induction false} NormKeepsItems(items: seq<Json>)
    requires SmallItems(items)
    ensures NormItems(items) == items
    decreases items, 0
  {
    if items != [] {
      NormKeepsSmall(items[0]);
      NormKeepsItems(items[1..]);
    }
  }

  lemma {:induction false} NormKeepsFields(fields: seq<Field>)
    requires SmallFields(fields)
    ensures NormFields(fields) == fields
    decreases fields, 0
  {
    if fields != [] {
      NormKeepsSmall(fields[0].value);
      NormKeepsFields(fields[1..]);
    }
  }
}
