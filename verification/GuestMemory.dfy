// Guest RAM: one byte array, written in place.
module GuestMemory {
  import opened Wrappers

  // ram with data copied over it at `at`
  function Patched(ram: seq<U8>, at: nat, data: seq<U8>): seq<U8>
    requires at + |data| <= |ram|
  {
    ram[..at] + data + ram[at + |data|..]
  }

  class Memory {
    const ram: array<U8>

    // allocate: fresh zero pages
    constructor (length: nat)
      ensures fresh(ram) && ram.Length == length
      ensures forall i :: 0 <= i < length ==> ram[i] == 0
    {
      ram := new U8[length](_ => 0);
    }

    // A write that does not fit fails and changes nothing.
    method WriteAt(gpa: U64, data: seq<U8>) returns (ok: bool)
      modifies ram
      ensures ok <==> gpa + |data| <= ram.Length
      ensures ram[..] == if ok then Patched(old(ram[..]), gpa, data) else old(ram[..])
    {
      if gpa + |data| > ram.Length {
        return false;
      }
      forall i | 0 <= i < |data| {
        ram[gpa + i] := data[i];
      }
      ok := true;
    }

    method ReadAt(gpa: U64, length: nat) returns (r: Option<seq<U8>>)
      ensures r == if gpa + length <= ram.Length then Some(ram[gpa..gpa + length]) else None
    {
      if gpa + length > ram.Length {
        return None;
      }
      r := Some(ram[gpa..gpa + length]);
    }
  }

  // A read outside the written range sees what was there; inside, what was written.
  lemma ReadOverWrite(ram: seq<U8>, at: nat, data: seq<U8>, from: nat, length: nat)
    requires at + |data| <= |ram| && from + length <= |ram|
    ensures |Patched(ram, at, data)| == |ram|
    ensures from + length <= at || at + |data| <= from ==>
              Patched(ram, at, data)[from..from + length] == ram[from..from + length]
    ensures at <= from && from + length <= at + |data| ==>
              Patched(ram, at, data)[from..from + length] == data[from - at..from - at + length]
  {
    var p := Patched(ram, at, data);
    if from + length <= at || at + |data| <= from {
      assert forall i :: from <= i < from + length ==> p[i] == ram[i];
    }
  }
}
