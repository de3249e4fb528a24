// The Internet checksum of the freestanding guest (section 1 of RFC 1071).
module Checksum {
  import opened Wrappers

  const MAX_LENGTH := 131_072
  const TWO32 := 0x1_0000_0000

  // The sum of the buffer's big-endian 16-bit words; an odd last byte is padded with a zero.
  function WordSum(p: seq<U8>): nat {
    if |p| == 0 then 0
    else if |p| == 1 then 256 * p[0]
    else 256 * p[0] + p[1] + WordSum(p[2..])
  }

  // The words before index i.
  function SumUpTo(p: seq<U8>, i: nat): nat
    requires i <= |p| && i % 2 == 0
  {
    if i == 0 then 0 else SumUpTo(p, i - 2) + 256 * p[i - 2] as int + p[i - 1] as int
  }

  // One's-complement reduction to 16 bits.
  function Fold(s: nat): nat
    decreases s
  {
    if s < 0x1_0000 then s else Fold(s % 0x1_0000 + s / 0x1_0000)
  }

  lemma {:induction false} SumUpToIsWordSum(p: seq<U8>, i: nat)
    requires i <= |p| && i % 2 == 0
    ensures WordSum(p) == SumUpTo(p, i) + WordSum(p[i..])
  {
    if i == 0 {
      assert p[0..] == p;
    } else {
      SumUpToIsWordSum(p, i - 2);
      assert p[i - 2..][2..] == p[i..];
    }
  }

  // cksum: the u32 accumulator wraps.
  function Checksum(p: seq<U8>): U16 {
    ChecksumOf(WordSum(p))
  }

  method Cksum(p: seq<U8>) returns (r: U16)
    ensures r == Checksum(p)
  {
    var s: U32 := 0;
    var i := 0;
    while i + 1 < |p|
      invariant i <= |p| && i % 2 == 0
      invariant s == SumUpTo(p, i) % TWO32
    {
      AddWraps(SumUpTo(p, i), 256 * p[i] as int + p[i + 1] as int);
      s := Add32(s, 256 * p[i] as int + p[i + 1] as int);
      i := i + 2;
    }
    SumUpToIsWordSum(p, i);
    if |p| % 2 == 1 {
      assert p[i..] == [p[i]];
      AddWraps(SumUpTo(p, i), 256 * p[|p| - 1] as int);
      s := Add32(s, 256 * p[|p| - 1] as int);
    }
    assert s == WordSum(p) % TWO32;
    var folded := FoldTo16(s);
    r := 0xFFFF - folded;
  }

  function Add32(a: U32, b: U32): U32 {
    (a as int + b as int) % TWO32
  }

  lemma AddWraps(a: nat, b: U32)
    ensures Add32(a % TWO32, b) == (a + b) % TWO32
  {
  }

  // `while (s >> 16) s = (s & 0xffff) + (s >> 16);`
  method FoldTo16(sum: U32) returns (s: U16)
    ensures s == Fold(sum)
  {
    var t := sum;
    while t / 0x1_0000 != 0
      invariant Fold(t) == Fold(sum)
      decreases t
    {
      t := t % 0x1_0000 + t / 0x1_0000;
    }
    s := t;
  }

  lemma SumOfMultiples(a: int, b: int)
    requires a % 0xFFFF == 0
    ensures (a + b) % 0xFFFF == 0 <==> b % 0xFFFF == 0
  {
    var k := a / 0xFFFF;
    assert a == 0xFFFF * k;
    if b % 0xFFFF == 0 {
      assert a + b == 0xFFFF * (k + b / 0xFFFF);
    }
    if (a + b) % 0xFFFF == 0 {
      assert b == 0xFFFF * ((a + b) / 0xFFFF - k);
    }
  }

  // Folding keeps the residue mod 0xFFFF, lands in 16 bits, and is zero only for zero.
  lemma {:induction false} FoldIsResidue(s: nat)
    ensures Fold(s) <= 0xFFFF && (s - Fold(s)) % 0xFFFF == 0 && (Fold(s) == 0 <==> s == 0)
    decreases s
  {
    if s >= 0x1_0000 {
      var hi := s / 0x1_0000;
      var next := s % 0x1_0000 + hi;
      FoldIsResidue(next);
      assert s - next == 0xFFFF * hi;
      SumOfMultiples(s - next, next - Fold(next));
    }
  }

  // p with the word at an even offset replaced.
  function WithWord(p: seq<U8>, at: nat, word: U16): seq<U8>
    requires at + 2 <= |p|
  {
    p[at := word / 256][at + 1 := word % 256]
  }

  lemma {:induction false} SumWithWord(p: seq<U8>, at: nat, word: U16)
    requires at + 2 <= |p| && at % 2 == 0 && p[at] == 0 && p[at + 1] == 0
    ensures WordSum(WithWord(p, at, word)) == WordSum(p) + word
  {
    var q := WithWord(p, at, word);
    if at == 0 {
      assert q[2..] == p[2..];
    } else {
      SumWithWord(p[2..], at - 2, word);
      assert q[2..] == WithWord(p[2..], at - 2, word);
    }
  }

  lemma AllOnesOrZero(x: nat)
    requires x <= 2 * 0xFFFF
    ensures x % 0xFFFF == 0 <==> x == 0 || x == 0xFFFF || x == 2 * 0xFFFF
  {
  }

  lemma FoldsToAllOnes(s: nat, word: U16)
    ensures Fold(s + word) == 0xFFFF <==> word == 0xFFFF - Fold(s) || (Fold(s) == 0xFFFF && word == 0xFFFF)
  {
    var f, g := Fold(s), Fold(s + word);
    FoldIsResidue(s);
    FoldIsResidue(s + word);
    SumOfMultiples(s - f, f + word);
    SumOfMultiples(s + word - g, g);
    AllOnesOrZero(f + word);
    AllOnesOrZero(g);
  }

  lemma {:induction false} WordSumBound(p: seq<U8>)
    ensures WordSum(p) <= (|p| + 1) / 2 * 0xFFFF
  {
    if |p| > 1 {
      WordSumBound(p[2..]);
    }
  }

  lemma WrappedSum(a: nat, c: U16)
    ensures (a + c) % TWO32 == if a % TWO32 + c < TWO32 then a % TWO32 + c else a % TWO32 + c - TWO32
  {
  }

  lemma SmallIsUnwrapped(a: nat)
    requires a < TWO32
    ensures a % TWO32 == a
  {
  }

  // The checksum of a buffer whose words sum to a.
  function ChecksumOf(a: nat): (r: U16)
    ensures r == 0xFFFF - Fold(a % TWO32)
  {
    FoldIsResidue(a % TWO32);
    0xFFFF - Fold(a % TWO32)
  }

  // 2^32 - 1 is a multiple of 0xFFFF, so adding the checksum never carries out of 32 bits.
  lemma ChecksumNeverCarries(s: nat)
    requires s < TWO32
    ensures s + (0xFFFF - Fold(s)) < TWO32
  {
    FoldIsResidue(s);
    var k := (s - Fold(s)) / 0xFFFF;
    assert s == 0xFFFF * k + Fold(s);
    assert TWO32 - 1 == 0xFFFF * 0x1_0001;
    assert k <= 0x1_0000;
  }

  lemma ChecksumOfSum(a: nat)
    ensures ChecksumOf(a + ChecksumOf(a)) == 0
  {
    var s, c := a % TWO32, ChecksumOf(a);
    ChecksumNeverCarries(s);
    WrappedSum(a, c);
    FoldsToAllOnes(s, c);
  }

  // Storing the checksum in its zeroed field makes the checksum of the whole buffer zero,
  // however long the buffer is.
  lemma StoredChecksumVerifies(p: seq<U8>, at: nat)
    requires at + 2 <= |p| && at % 2 == 0 && p[at] == 0 && p[at + 1] == 0
    ensures Checksum(WithWord(p, at, Checksum(p))) == 0
  {
    SumWithWord(p, at, Checksum(p));
    ChecksumOfSum(WordSum(p));
  }

  // In a buffer of up to 131,072 bytes no other word verifies, except the other form of zero.
  lemma OnlyTheChecksumVerifies(p: seq<U8>, at: nat, word: U16)
    requires at + 2 <= |p| <= MAX_LENGTH && at % 2 == 0 && p[at] == 0 && p[at + 1] == 0
    ensures Checksum(WithWord(p, at, word)) == 0
            <==> word == Checksum(p) || (Checksum(p) == 0 && word == 0xFFFF)
  {
    SumWithWord(p, at, word);
    WordSumBound(p);
    WordSumBound(WithWord(p, at, word));
    SmallSum(WordSum(p), word);
  }

  lemma SmallSum(a: nat, word: U16)
    requires a < TWO32 && a + word < TWO32
    ensures ChecksumOf(a + word) == 0 <==> word == ChecksumOf(a) || (ChecksumOf(a) == 0 && word == 0xFFFF)
  {
    SmallIsUnwrapped(a);
    SmallIsUnwrapped(a + word);
    FoldsToAllOnes(a, word);
  }

  // An odd buffer sums as if it ended in one more zero byte.
  lemma OddLengthIsPadded(p: seq<U8>)
    requires |p| % 2 == 1
    ensures Checksum(p + [0]) == Checksum(p)
  {
    PaddedSum(p);
  }

  lemma {:induction false} PaddedSum(p: seq<U8>)
    requires |p| % 2 == 1
    ensures WordSum(p + [0]) == WordSum(p)
  {
    if |p| > 1 {
      PaddedSum(p[2..]);
      assert (p + [0])[2..] == p[2..] + [0];
    }
  }
}
