/** Octets, as the codecs see them. */
module Bytes {
  type byte = b: int | 0 <= b < 256

  datatype Option<+T> = None | Some(value: T)

  const CR: byte := 13
  const LF: byte := 10

  function Concat<T>(parts: seq<seq<T>>): seq<T> {
    if parts == [] then [] else parts[0] + Concat(parts[1..])
  }

  /** The first part joins what precedes it. */
  lemma {:induction false} ConcatCons<T>(first: seq<T>, parts: seq<seq<T>>)
    ensures parts == [] ==> first + Concat(parts) == first
    ensures parts != [] ==> first + Concat(parts) == (first + parts[0]) + Concat(parts[1..])
  {
    if parts != [] {
      assert first + (parts[0] + Concat(parts[1..])) == (first + parts[0]) + Concat(parts[1..]);
    }
  }

  // ---------------------------------------------------------------- big-endian numbers

  function Pow256(k: nat): (p: nat)
    ensures p > 0
  {
    if k == 0 then 1 else 256 * Pow256(k - 1)
  }

  lemma {:induction false} Powers()
    ensures Pow256(1) == 256 && Pow256(2) == 65536 && Pow256(4) == 0x1_0000_0000 && Pow256(8) == 0x1_0000_0000_0000_0000
  {
    assert Pow256(1) == 256 && Pow256(2) == 65536 && Pow256(3) == 0x100_0000 && Pow256(4) == 0x1_0000_0000;
    assert Pow256(5) == 0x100_0000_0000 && Pow256(6) == 0x1_0000_0000_0000 && Pow256(7) == 0x100_0000_0000_0000;
  }

  /** The low k bytes of n, most significant first. */
  function Be(n: nat, k: nat): (s: seq<byte>)
    ensures |s| == k
  {
    if k == 0 then [] else Be(n / 256, k - 1) + [n % 256]
  }

  function FromBe(s: seq<byte>): (n: nat) {
    if s == [] then 0 else 256 * FromBe(s[..|s| - 1]) + s[|s| - 1]
  }

  lemma {:induction false} FromBeRange(s: seq<byte>)
    ensures FromBe(s) < Pow256(|s|)
    decreases |s|
  {
    if s != [] { FromBeRange(s[..|s| - 1]); }
  }

  /** Reading back what was written gives the number, cut to k bytes. */
  lemma {:induction false} FromBeOfBe(n: nat, k: nat)
    requires n < Pow256(k)
    ensures FromBe(Be(n, k)) == n
    decreases k
  {
    if k > 0 {
      FromBeOfBe(n / 256, k - 1);
      assert Be(n, k)[..k - 1] == Be(n / 256, k - 1);
    }
  }

  /** Appending low-order digits. */
  lemma {:induction false} FromBeAppend(s: seq<byte>, d: byte)
    ensures FromBe(s + [d]) == 256 * FromBe(s) + d
  {
    assert (s + [d])[..|s|] == s;
  }
}
