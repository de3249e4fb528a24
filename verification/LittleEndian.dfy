// `to_le_bytes` / `from_le_bytes`; also `to_ne_bytes` on the little-endian hosts the VMM targets.
module LittleEndian {
  import opened Wrappers

  function Pow256(k: nat): nat {
    if k == 0 then 1 else 256 * Pow256(k - 1)
  }

  function Encode(v: nat, k: nat): (r: seq<U8>)
    ensures |r| == k
  {
    if k == 0 then [] else [v % 256] + Encode(v / 256, k - 1)
  }

  function Decode(s: seq<U8>): nat {
    if s == [] then 0 else s[0] + 256 * Decode(s[1..])
  }

  lemma {:induction false} DecodeEncode(v: nat, k: nat)
    requires v < Pow256(k)
    ensures Decode(Encode(v, k)) == v
  {
    if k > 0 {
      assert Encode(v, k)[1..] == Encode(v / 256, k - 1);
      DecodeEncode(v / 256, k - 1);
    }
  }

  lemma {:induction false} EncodeInjective(a: nat, b: nat, k: nat)
    requires a < Pow256(k) && b < Pow256(k)
    requires Encode(a, k) == Encode(b, k)
    ensures a == b
  {
    DecodeEncode(a, k);
    DecodeEncode(b, k);
  }

  lemma WidthOf(v: nat)
    ensures v < 0x1_0000 ==> v < Pow256(2)
    ensures v < 0x1_0000_0000 ==> v < Pow256(4)
    ensures v < 0x1_0000_0000_0000_0000 ==> v < Pow256(8)
  {
    assert Pow256(2) == 0x1_0000;
    assert Pow256(4) == 0x1_0000_0000;
    assert Pow256(6) == 0x1_0000_0000_0000;
    assert Pow256(8) == 0x1_0000_0000_0000_0000;
  }
}
