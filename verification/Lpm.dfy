// The kernel's longest-prefix-match trie. The kernel identifies an entry by its first
// `prefixlen` bits, so the trie is a map from those bits to the stored value.
module Lpm {
  import opened Wrappers

  type Table = map<seq<bool>, U32>

  function LookupFrom(t: Table, key: seq<bool>, n: nat): Option<U32>
    requires n <= |key|
  {
    if key[..n] in t then Some(t[key[..n]])
    else if n == 0 then None
    else LookupFrom(t, key, n - 1)
  }

  function Lookup(t: Table, key: seq<bool>): Option<U32> {
    LookupFrom(t, key, |key|)
  }

  // `value && *value`
  predicate Hit(t: Table, key: seq<bool>) {
    var r := Lookup(t, key);
    r.Some? && r.value != 0
  }

  // Some stored entry is a prefix of the key: what a plain scan over the entries finds.
  ghost predicate Covers(t: Table, key: seq<bool>) {
    exists n: nat :: n <= |key| && key[..n] in t
  }

  ghost predicate AllOnes(t: Table) {
    forall k :: k in t ==> t[k] == 1
  }

  lemma {:induction false} LookupFromIsLongest(t: Table, key: seq<bool>, n: nat)
    requires n <= |key|
    ensures var r := LookupFrom(t, key, n);
            if r.Some? then
              exists m: nat :: m <= n && key[..m] in t && r.value == t[key[..m]]
                               && forall l :: m < l <= n ==> key[..l] !in t
            else
              forall l: nat :: l <= n ==> key[..l] !in t
  {
    if key[..n] !in t && n > 0 {
      LookupFromIsLongest(t, key, n - 1);
    }
  }

  // The trie returns the value of the longest stored prefix of the key, if there is one.
  lemma LookupIsLongest(t: Table, key: seq<bool>)
    ensures Lookup(t, key).None? <==> !Covers(t, key)
    ensures Lookup(t, key).Some? ==>
              exists m: nat :: m <= |key| && key[..m] in t && Lookup(t, key) == Some(t[key[..m]])
                               && forall l :: m < l <= |key| ==> key[..l] !in t
  {
    LookupFromIsLongest(t, key, |key|);
  }

  // When every stored value is 1, which one is longest does not matter.
  lemma HitIffCovers(t: Table, key: seq<bool>)
    requires AllOnes(t)
    ensures Hit(t, key) <==> Covers(t, key)
  {
    LookupIsLongest(t, key);
  }
}
