// The /28 allocator for sandbox namespaces inside 169.254.0.0/16.
module Ipam {
  import opened Wrappers

  type VmId = string

  const POOL_SIZE: U16 := 4096

  ghost predicate Sound(allocations: map<VmId, U16>) {
    && (forall id :: id in allocations ==> allocations[id] < POOL_SIZE)
    && (forall a, b :: a in allocations && b in allocations && allocations[a] == allocations[b] ==> a == b)
  }

  // `(from..POOL_SIZE).find(|n| !used.contains(n))`
  function FindFree(used: set<U16>, from: U16): (r: Option<U16>)
    requires from <= POOL_SIZE
    ensures r.Some? ==>
              from <= r.value < POOL_SIZE && r.value !in used && forall n: U16 :: from <= n < r.value ==> n in used
    ensures r.None? ==> forall n: U16 :: from <= n < POOL_SIZE ==> n in used
    decreases POOL_SIZE - from
  {
    if from == POOL_SIZE then None
    else if from !in used then Some(from)
    else FindFree(used, from + 1)
  }

  // The blocks follow one another in 169.254.0.0/16, sixteen addresses each.
  function BlockToOctets(block: U16): (r: (U8, U8))
    requires block < POOL_SIZE
    ensures 256 * r.0 as int + r.1 as int == 16 * block
  {
    (block / 16, block % 16 * 16)
  }

  /* Counting: the pool is exhausted exactly when 4096 blocks are held. */

  function Below(n: U16): (s: set<U16>)
    ensures |s| == n && forall k: U16 :: k in s <==> k < n
  {
    if n == 0 then {} else Below(n - 1) + {n - 1}
  }

  lemma {:induction false} HoldersAndBlocks(allocations: map<VmId, U16>)
    requires Sound(allocations)
    ensures |allocations.Values| == |allocations|
  {
    if allocations != map[] {
      var id :| id in allocations;
      var rest := allocations - {id};
      HoldersAndBlocks(rest);
      forall v ensures v in rest.Values <==> v in allocations.Values && v != allocations[id] {
        if v in allocations.Values && v != allocations[id] {
          var k :| k in allocations && allocations[k] == v;
          assert rest[k] == v;
        }
      }
      assert rest.Values == allocations.Values - {allocations[id]};
      assert |allocations| == |rest| + 1 by {
        assert allocations == rest[id := allocations[id]];
      }
    }
  }

  lemma {:induction false} SubsetSize(small: set<U16>, large: set<U16>)
    requires small <= large
    ensures |small| <= |large| && (|small| == |large| ==> small == large)
  {
    if small != {} {
      var x :| x in small;
      SubsetSize(small - {x}, large - {x});
      assert small == (small - {x}) + {x} && large == (large - {x}) + {x};
    }
  }

  lemma FullBelow(used: set<U16>, n: U16)
    requires forall k :: k in used ==> k < n
    ensures |used| <= n && (|used| == n <==> forall k: U16 :: k < n ==> k in used)
  {
    var all := Below(n);
    SubsetSize(used, all);
    if forall k: U16 :: k < n ==> k in used {
      assert used == all;
    }
  }

  lemma ExhaustedIffFull(allocations: map<VmId, U16>)
    requires Sound(allocations)
    ensures |allocations| <= 4096
    ensures FindFree(allocations.Values, 0).None? <==> |allocations| == 4096
  {
    HoldersAndBlocks(allocations);
    FullBelow(allocations.Values, POOL_SIZE);
  }

  /* The addresses of a block: base+1 the gateway, base+2 the namespace, base+3 the guest and
     the start of its DHCP range, base+14 the end. */

  function Address(block: U16, offset: nat): (U8, U8, U8, U8)
    requires block < POOL_SIZE && offset < 16
  {
    var (third, base) := BlockToOctets(block);
    (169, 254, third, base + offset)
  }

  lemma LiveAddressesDiffer(allocations: map<VmId, U16>, a: VmId, b: VmId, i: nat, j: nat)
    requires Sound(allocations) && a in allocations && b in allocations && i < 16 && j < 16
    ensures Address(allocations[a], i) == Address(allocations[b], j) <==> a == b && i == j
  {
    var x, y := allocations[a], allocations[b];
    if Address(x, i) == Address(y, j) {
      assert x / 16 == y / 16 && x % 16 * 16 + i == y % 16 * 16 + j;
      assert x % 16 == y % 16;
      assert i == j;
      assert x == 16 * (x / 16) + x % 16 && y == 16 * (y / 16) + y % 16;
      assert x == y;
    }
  }

  // Every operation holds the file lock from reading the state to renaming the new one into
  // place; `persisted` says whether the write goes through.
  class IpamStore {
    var allocations: map<VmId, U16>

    ghost predicate Valid()
      reads this
    {
      Sound(allocations)
    }

    constructor ()
      ensures Valid() && allocations == map[]
    {
      allocations := map[];
    }

    method Allocate(id: VmId, persisted: bool) returns (r: Result<(U8, U8)>)
      requires Valid()
      modifies this
      ensures Valid()
      ensures r.Err? <==> !persisted || (id !in old(allocations) && |old(allocations)| == 4096)
      ensures r.Err? ==> allocations == old(allocations)
      ensures r.Ok? ==> id in allocations && r.value == BlockToOctets(allocations[id])
      ensures r.Ok? && id in old(allocations) ==> allocations == old(allocations)
      ensures r.Ok? && id !in old(allocations) ==>
                && allocations == old(allocations)[id := allocations[id]]
                && forall n: U16 :: n < allocations[id] ==> n in old(allocations).Values
    {
      var state := allocations;
      ExhaustedIffFull(state);
      if id in state {
        r := Ok(BlockToOctets(state[id]));
      } else {
        match FindFree(state.Values, 0) {
          case None => return Err;
          case Some(block) =>
            state := state[id := block];
            r := Ok(BlockToOctets(block));
        }
      }
      if !persisted {
        return Err;
      }
      allocations := state;
    }

    method Release(id: VmId, persisted: bool) returns (r: Result<Option<(U8, U8)>>)
      requires Valid()
      modifies this
      ensures Valid()
      ensures r.Err? <==> !persisted
      ensures allocations == if persisted then old(allocations) - {id} else old(allocations)
      ensures r.Ok? ==> r.value == if id in old(allocations) then Some(BlockToOctets(old(allocations)[id])) else None
    {
      if !persisted {
        return Err;
      }
      r := Ok(if id in allocations then Some(BlockToOctets(allocations[id])) else None);
      allocations := allocations - {id};
    }
  }
}
