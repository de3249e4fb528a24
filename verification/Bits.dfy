// Addresses and map keys as bit strings, most significant bit of the first byte first: the
// order in which they lie in packet memory and in which an LPM trie compares them.
module Bits {
  import opened Wrappers

  function Ones(w: nat): seq<bool> {
    seq(w, _ => true)
  }

  function Zeros(w: nat): seq<bool> {
    seq(w, _ => false)
  }

  // `b << k`. A shift by the whole width is an overflow in Rust, hence the bound.
  function Shl(b: seq<bool>, k: nat): seq<bool>
    requires k < |b|
  {
    b[k..] + Zeros(k)
  }

  function And(a: seq<bool>, b: seq<bool>): seq<bool>
    requires |a| == |b|
  {
    seq(|a|, i requires 0 <= i < |a| => a[i] && b[i])
  }

  // `if prefix == 0 { 0 } else { MAX << (w - prefix) }`
  function PrefixMask(w: nat, prefix: nat): seq<bool>
    requires prefix <= w
  {
    if prefix == 0 then Zeros(w) else Shl(Ones(w), w - prefix)
  }

  // Masking keeps the leading bits and clears the rest.
  lemma MaskKeepsPrefix(a: seq<bool>, prefix: nat)
    requires prefix <= |a|
    ensures |PrefixMask(|a|, prefix)| == |a|
    ensures And(a, PrefixMask(|a|, prefix)) == a[..prefix] + Zeros(|a| - prefix)
  {
    var mask := PrefixMask(|a|, prefix);
    assert forall i :: 0 <= i < |a| ==> mask[i] == (i < prefix);
  }

  // The low `w` bits of n.
  function OfNat(n: nat, w: nat): (r: seq<bool>)
    ensures |r| == w
  {
    if w == 0 then [] else OfNat(n / 2, w - 1) + [n % 2 == 1]
  }

  function OfBytes(bytes: seq<U8>): (r: seq<bool>)
    ensures |r| == 8 * |bytes|
  {
    if bytes == [] then [] else OfNat(bytes[0], 8) + OfBytes(bytes[1..])
  }

  function Pow2(w: nat): nat {
    if w == 0 then 1 else 2 * Pow2(w - 1)
  }

  lemma {:induction false} OfNatInjective(a: nat, b: nat, w: nat)
    requires a < Pow2(w) && b < Pow2(w)
    requires OfNat(a, w) == OfNat(b, w)
    ensures a == b
  {
    if w > 0 {
      assert OfNat(a, w)[..w - 1] == OfNat(a / 2, w - 1);
      assert OfNat(b, w)[..w - 1] == OfNat(b / 2, w - 1);
      assert OfNat(a, w)[w - 1] == OfNat(b, w)[w - 1];
      OfNatInjective(a / 2, b / 2, w - 1);
    }
  }

  lemma Pow2Of8()
    ensures Pow2(8) == 256
  {
    assert Pow2(4) == 16;
  }

  lemma {:induction false} OfBytesInjective(a: seq<U8>, b: seq<U8>)
    requires |a| == |b| && OfBytes(a) == OfBytes(b)
    ensures a == b
  {
    if a != [] {
      assert OfBytes(a)[..8] == OfNat(a[0], 8) && OfBytes(b)[..8] == OfNat(b[0], 8);
      assert OfBytes(a)[8..] == OfBytes(a[1..]) && OfBytes(b)[8..] == OfBytes(b[1..]);
      Pow2Of8();
      OfNatInjective(a[0], b[0], 8);
      OfBytesInjective(a[1..], b[1..]);
    }
  }
}
