/** The parser as a function of the input and the offset; it is total on every byte string. */
module EtfDecode {
  import opened Bytes
  import opened EtfTerm

  datatype Error = PastEnd | Distribution | Unsupported | UnknownType | BigIntTooLarge | BadKey | BadVersion

  /** A value and the offset behind it, or the exception. */
  datatype Parsed<+T> = Ok(value: T, next: nat) | Fail(error: Error) {
    predicate IsFailure() { Fail? }
    function PropagateFailure<U>(): Parsed<U> requires Fail? { Fail(error) }
    function Extract(): (T, nat) requires Ok? { (value, next) }
  }

  /** What the C++ runtime contributes: sscanf("%lf") on float text, and the conversion of a double map key. */
  datatype Host = Host(scanDouble: bytes -> Option<nat>, doubleToUint64: nat -> nat)

  // ---------------------------------------------------------------- primitive reads

  function ReadNum(d: bytes, off: nat, k: nat): (r: Parsed<nat>)
    ensures r.Ok? <==> off + k <= |d|
    ensures r.Ok? ==> r.next == off + k && r.value < Pow256(k)
  {
    if off + k > |d| then Fail(PastEnd) else
    FromBeRange(d[off..off + k]);
    Ok(FromBe(d[off..off + k]), off + k)
  }

  /** None is the null result: nothing is consumed then. */
  function ReadString(d: bytes, off: nat, length: nat): (r: (Option<bytes>, nat))
    requires off <= |d|
    ensures off <= r.1 <= |d|
    ensures r.0.Some? ==> |r.0.value| == length
  {
    if off + length > |d| then (None, off) else (Some(d[off..off + length]), off + length)
  }

  function Signed32(n: nat): int
    requires n < TWO_32
  {
    if n >= TWO_31 then n - TWO_32 else n
  }

  /** Reduction to int64_t. */
  function Wrap64(n: int): int {
    var m := n % TWO_64;
    if m >= TWO_63 then m - TWO_64 else m
  }

  function ProcessAtom(atom: Option<bytes>): Json {
    if atom.None? then Null
    else if atom.value == [110, 117, 108, 108] || atom.value == [110, 105, 108] then Null
    else if atom.value == [116, 114, 117, 101] then Bool(true)
    else if atom.value == [102, 97, 108, 115, 101] then Bool(false)
    else Str(atom.value)
  }

  function BigIntText(sign: byte, value: nat): bytes {
    var v: int := value;
    if sign == 0 then Decimal(v) else Decimal(Wrap64(-v))
  }

  function DecodeBigInt(d: bytes, off: nat, digits: nat): (r: Parsed<Json>)
    ensures r.Ok? ==> off < r.next <= |d|
  {
    var (sign, o1) :- ReadNum(d, off, 1);
    if digits > 8 then Fail(BigIntTooLarge)
    else if o1 + digits > |d| then Fail(PastEnd)
    else Ok(Str(BigIntText(sign, FromLe(d[o1..o1 + digits]))), o1 + digits)
  }

  function Ints(s: bytes): (r: seq<Json>) {
    seq(|s|, i requires 0 <= i < |s| => Int(s[i]))
  }

  function TextOrNull(text: Option<bytes>): Json {
    if text.Some? then Str(text.value) else Null
  }

  /** The types without parts, from behind the tag. */
  function DecodeLeaf(h: Host, d: bytes, tag: byte, off: nat): (r: Parsed<Json>)
    requires off <= |d|
    ensures r.Ok? ==> off <= r.next <= |d|
  {
    if tag == SMALL_INT then
      var (n, o) :- ReadNum(d, off, 1); Ok(Int(n), o)
    else if tag == INTEGER then
      var (n, o) :- ReadNum(d, off, 4); Powers(); Ok(Int(Signed32(n)), o)
    else if tag == FLOAT_TEXT then
      var (text, o) := ReadString(d, off, 31);
      var bits := if text.None? then None else h.scanDouble(text.value);
      Ok(if bits.Some? then Float(bits.value) else Null, o)
    else if tag == NEW_FLOAT then
      var (bits, o) :- ReadNum(d, off, 8); Ok(Float(bits), o)
    else if tag == ATOM then
      var (length, o1) :- ReadNum(d, off, 2);
      var (atom, o2) := ReadString(d, o1, length);
      Ok(ProcessAtom(atom), o2)
    else if tag == ATOM_SMALL then
      var (length, o1) :- ReadNum(d, off, 1);
      var (atom, o2) := ReadString(d, o1, length);
      Ok(ProcessAtom(atom), o2)
    else if tag == NIL then Ok(Arr([]), off)
    else if tag == STRING then
      var (length, o1) :- ReadNum(d, off, 2);
      if o1 + length > |d| then Fail(PastEnd) else Ok(Arr(Ints(d[o1..o1 + length])), o1 + length)
    else if tag == BINARY then
      var (length, o1) :- ReadNum(d, off, 4);
      var (text, o2) := ReadString(d, o1, length);
      Ok(TextOrNull(text), o2)
    else if tag == BIGINT_SMALL then
      var (digits, o1) :- ReadNum(d, off, 1); DecodeBigInt(d, o1, digits)
    else if tag == BIGINT_LARGE then
      var (digits, o1) :- ReadNum(d, off, 4); DecodeBigInt(d, o1, digits)
    else if tag == DISTRIBUTION then Fail(Distribution)
    else if tag == COMPRESSED then Fail(Unsupported)
    else Fail(UnknownType)
  }

  // ---------------------------------------------------------------- keys

  /** json::emplace: keeps an existing field. */
  function Emplace(fields: seq<Field>, key: bytes, value: Json): (r: seq<Field>)
    ensures forall f :: f in fields ==> f in r
    ensures forall f :: f in r ==> f in fields || f == Field(key, value)
    ensures r != []
  {
    if fields == [] then [Field(key, value)]
    else if fields[0].key == key then fields
    else if Less(key, fields[0].key) then [Field(key, value)] + fields
    else [fields[0]] + Emplace(fields[1..], key, value)
  }

  /** The text a decoded key stands for. */
  function KeyText(h: Host, key: Json): Option<bytes> {
    match key
    case Int(n) => Some(Decimal(n % TWO_64))
    case Float(bits) => Some(Decimal(h.doubleToUint64(bits) % TWO_64))
    case Str(s) => Some(s)
    case _ => None
  }

  // ---------------------------------------------------------------- compound types

  const CREATION: bytes := [99, 114, 101, 97, 116, 105, 111, 110]
  const ID: bytes := [105, 100]
  const NODE: bytes := [110, 111, 100, 101]
  const SERIAL: bytes := [115, 101, 114, 105, 97, 108]
  const ARITY: bytes := [97, 114, 105, 116, 121]
  const FUN: bytes := [102, 117, 110]
  const MOD: bytes := [109, 111, 100]

  function ReadIds(d: bytes, off: nat, n: nat): (r: Parsed<seq<Json>>)
    requires off <= |d|
    ensures r.Ok? ==> off <= r.next <= |d|
    decreases n
  {
    if n == 0 then Ok([], off) else
    var (id, o1) :- ReadNum(d, off, 4);
    Powers();
    var (ids, o2) :- ReadIds(d, o1, n - 1);
    Ok([Int(Signed32(id))] + ids, o2)
  }

  predicate IsCompound(tag: byte) {
    tag in {SMALL_TUPLE, LARGE_TUPLE, LIST, MAP, REFERENCE, NEW_REFERENCE, PORT, PID, EXPORT}
  }

  /** `inner_parse`: every value takes at least one byte and never more than there are. */
  function Decode(h: Host, d: bytes, off: nat): (r: Parsed<Json>)
    requires off <= |d|
    ensures r.Ok? ==> off < r.next <= |d|
    decreases |d| - off, 0
  {
    var (tag, o) :- ReadNum(d, off, 1);
    Powers();
    if IsCompound(tag) then DecodeCompound(h, d, tag, o) else DecodeLeaf(h, d, tag, o)
  }

  function DecodeCompound(h: Host, d: bytes, tag: byte, off: nat): (r: Parsed<Json>)
    requires off <= |d| && IsCompound(tag)
    ensures r.Ok? ==> off <= r.next <= |d|
    decreases |d| - off, 2
  {
    if tag == SMALL_TUPLE then
      var (n, o1) :- ReadNum(d, off, 1);
      var (items, o2) :- DecodeArray(h, d, o1, n);
      Ok(Arr(items), o2)
    else if tag == LARGE_TUPLE then
      var (n, o1) :- ReadNum(d, off, 4);
      var (items, o2) :- DecodeArray(h, d, o1, n);
      Ok(Arr(items), o2)
    else if tag == LIST then DecodeList(h, d, off)
    else if tag == MAP then
      var (n, o1) :- ReadNum(d, off, 4);
      var (fields, o2) :- DecodeFields(h, d, o1, n, []);
      Ok(if n == 0 then Null else Obj(fields), o2)
    else if tag == REFERENCE then
      var (node, o1) :- Decode(h, d, off);
      var (ids, o2) :- ReadIds(d, o1, 1);
      var (creation, o3) :- ReadNum(d, o2, 1);
      Ok(Obj([Field(CREATION, Int(creation)), Field(ID, Arr(ids)), Field(NODE, node)]), o3)
    else if tag == NEW_REFERENCE then
      var (n, o1) :- ReadNum(d, off, 2);
      var (node, o2) :- Decode(h, d, o1);
      var (creation, o3) :- ReadNum(d, o2, 1);
      var (ids, o4) :- ReadIds(d, o3, n);
      Ok(Obj([Field(CREATION, Int(creation)), Field(ID, Arr(ids)), Field(NODE, node)]), o4)
    else if tag == PORT then
      var (node, o1) :- Decode(h, d, off);
      var (id, o2) :- ReadNum(d, o1, 4);
      var (creation, o3) :- ReadNum(d, o2, 1);
      Ok(Obj([Field(CREATION, Int(creation)), Field(ID, Int(id)), Field(NODE, node)]), o3)
    else if tag == PID then
      var (node, o1) :- Decode(h, d, off);
      var (id, o2) :- ReadNum(d, o1, 4);
      var (serial, o3) :- ReadNum(d, o2, 4);
      var (creation, o4) :- ReadNum(d, o3, 1);
      Ok(Obj([Field(CREATION, Int(creation)), Field(ID, Int(id)), Field(NODE, node), Field(SERIAL, Int(serial))]), o4)
    else
      var (module_, o1) :- Decode(h, d, off);
      var (fun, o2) :- Decode(h, d, o1);
      var (arity, o3) :- Decode(h, d, o2);
      Ok(Obj([Field(ARITY, arity), Field(FUN, fun), Field(MOD, module_)]), o3)
  }

  /** A list whose tail is not nil decodes to null. */
  function DecodeList(h: Host, d: bytes, off: nat): (r: Parsed<Json>)
    requires off <= |d|
    ensures r.Ok? ==> off <= r.next <= |d|
    decreases |d| - off, 1
  {
    var (n, o1) :- ReadNum(d, off, 4);
    var (items, o2) :- DecodeArray(h, d, o1, n);
    var (tail, o3) :- ReadNum(d, o2, 1);
    Ok(if tail == NIL then Arr(items) else Null, o3)
  }

  function DecodeArray(h: Host, d: bytes, off: nat, n: nat): (r: Parsed<seq<Json>>)
    requires off <= |d|
    ensures r.Ok? ==> off <= r.next <= |d| && |r.value| == n
    decreases |d| - off, 1
  {
    if n == 0 then Ok([], off) else
    var (item, o1) :- Decode(h, d, off);
    var (items, o2) :- DecodeArray(h, d, o1, n - 1);
    Ok([item] + items, o2)
  }

  function DecodeFields(h: Host, d: bytes, off: nat, n: nat, fields: seq<Field>): (r: Parsed<seq<Field>>)
    requires off <= |d|
    ensures r.Ok? ==> off <= r.next <= |d|
    decreases |d| - off, 1
  {
    if n == 0 then Ok(fields, off) else
    var (key, o1) :- Decode(h, d, off);
    var text := KeyText(h, key);
    if text.None? then Fail(BadKey) else
    var (value, o2) :- Decode(h, d, o1);
    DecodeFields(h, d, o2, n - 1, Emplace(fields, text.value, value))
  }

  /** `parse`: the version byte and one value; what follows is not looked at. */
  function Parse(h: Host, d: bytes): (r: Parsed<Json>)
    ensures r.Ok? ==> 2 <= r.next <= |d|
  {
    var (version, o) :- ReadNum(d, 0, 1);
    if version == FORMAT_VERSION then Decode(h, d, o) else Fail(BadVersion)
  }
}
